/** Addresses and payment methods and their default flag (internal/db/address.go,
    internal/db/payments.go, internal/api/address.go, internal/api/payments.go). */
module SavedItems {
  import opened Basics
  import opened Dynamo
  import opened Accounts
  import opened DefaultFlip

  const ADDRESSES := "ADDR#"
  const PAYMENTS := "PAY#"

  datatype Address = Address(
    addressId: string, alias: Option<string>, line1: string, line2: Option<string>,
    city: string, state: string, zipCode: string, country: string, isDefault: bool)

  datatype UpdateAddressRequest = UpdateAddressRequest(
    alias: Option<string>, line1: Option<string>, line2: Option<string>, city: Option<string>,
    state: Option<string>, zipCode: Option<string>, country: Option<string>, isDefault: Option<bool>)

  datatype PaymentMethod = PaymentMethod(
    paymentId: string, provider: string, last4: string, brand: string,
    expiryMonth: int, expiryYear: int, isDefault: bool)

  const NO_ADDRESS := Address("", None, "", None, "", "", "", "", false)
  const NO_PAYMENT := PaymentMethod("", "", "", "", 0, 0, false)

  function AddressKey(id: string, addressId: string): Key {
    Key(AccountPK(id), ADDRESSES + addressId)
  }

  function PaymentKey(id: string, paymentId: string): Key {
    Key(AccountPK(id), PAYMENTS + paymentId)
  }

  function AddressRow(a: Address): Item {
    map[
      "address_id" := S(a.addressId), "line1" := S(a.line1), "city" := S(a.city), "state" := S(a.state),
      "zip_code" := S(a.zipCode), "country" := S(a.country), "is_default" := Bool(a.isDefault)
    ] + IfPresent("alias", a.alias) + IfPresent("line2", a.line2)
  }

  function PaymentRow(m: PaymentMethod): Item {
    map[
      "payment_id" := S(m.paymentId), "provider" := S(m.provider), "last4" := S(m.last4), "brand" := S(m.brand),
      "expiry_month" := N(m.expiryMonth), "expiry_year" := N(m.expiryYear), "is_default" := Bool(m.isDefault)
    ]
  }

  /** A stored address shows every field it was stored with, and no empty alias or second line. */
  lemma AddressRowShows(a: Address)
    ensures var row := AddressRow(a);
      && Attribute(row, "address_id") == Some(S(a.addressId)) && Attribute(row, "line1") == Some(S(a.line1))
      && Attribute(row, "city") == Some(S(a.city)) && Attribute(row, "state") == Some(S(a.state))
      && Attribute(row, "zip_code") == Some(S(a.zipCode)) && Attribute(row, "country") == Some(S(a.country))
      && Attribute(row, "is_default") == Some(Bool(a.isDefault))
      && Attribute(row, "alias") == TextIfAny(a.alias) && Attribute(row, "line2") == TextIfAny(a.line2)
  {
    IfPresentHas("alias", a.alias);
    IfPresentHas("line2", a.line2);
  }

  lemma PaymentRowShows(m: PaymentMethod)
    ensures var row := PaymentRow(m);
      && Attribute(row, "payment_id") == Some(S(m.paymentId)) && Attribute(row, "provider") == Some(S(m.provider))
      && Attribute(row, "last4") == Some(S(m.last4)) && Attribute(row, "brand") == Some(S(m.brand))
      && Attribute(row, "expiry_month") == Some(N(m.expiryMonth))
      && Attribute(row, "expiry_year") == Some(N(m.expiryYear))
      && Attribute(row, "is_default") == Some(Bool(m.isDefault))
  {
  }

  lemma RowsShowDefault(a: Address, m: PaymentMethod)
    ensures BoolAttr(AddressRow(a), "is_default") == a.isDefault
    ensures BoolAttr(PaymentRow(m), "is_default") == m.isDefault
  {
  }

  // ---------- partial address updates ----------

  const ADDRESS_COLUMNS: seq<Column> := [
    Column("#alias", "alias", ":alias"),
    Column("#l1", "line1", ":l1"),
    Column("#l2", "line2", ":l2"),
    Column("#city", "city", ":city"),
    Column("#state", "state", ":state"),
    Column("#zc", "zip_code", ":zc"),
    Column("#country", "country", ":country"),
    Column("#isd", "is_default", ":isd")
  ]

  function Flagged(v: Option<bool>): Option<Attr> {
    if v.Some? then Some(Bool(v.value)) else None
  }

  function AddressValues(req: UpdateAddressRequest): (vals: seq<Option<Attr>>)
    ensures |vals| == |ADDRESS_COLUMNS|
  {
    [Str(req.alias), Str(req.line1), Str(req.line2), Str(req.city), Str(req.state), Str(req.zipCode),
     Str(req.country), Flagged(req.isDefault)]
  }

  function AddressPatch(req: UpdateAddressRequest): Item {
    PatchOf(ADDRESS_COLUMNS, AddressValues(req))
  }

  lemma AddressColumnsDistinct()
    ensures DistinctColumns(ADDRESS_COLUMNS)
  {
  }

  method BuildAddressUpdate(req: UpdateAddressRequest) returns (e: Expression)
    ensures e == ExpressionOf(NO_CLAUSES, ADDRESS_COLUMNS, AddressValues(req))
  {
    ghost var cols, vals := ADDRESS_COLUMNS, AddressValues(req);
    e := BuildStreetClauses(req);
    e := BuildPlaceClauses(req, e);
    assert cols[..8] == cols && vals[..8] == vals;
  }

  method BuildStreetClauses(req: UpdateAddressRequest) returns (e: Expression)
    ensures e == ExpressionOf(NO_CLAUSES, ADDRESS_COLUMNS[..4], AddressValues(req)[..4])
  {
    ghost var cols, vals := ADDRESS_COLUMNS, AddressValues(req);
    e := NO_CLAUSES;
    assert ExpressionOf(NO_CLAUSES, cols[..0], vals[..0]) == e;
    hide ExpressionOf;
    if req.alias.Some? {
      e := e.Set("#alias", "alias", ":alias", S(req.alias.value));
    }
    ExpressionStep(NO_CLAUSES, cols, vals, 0);
    if req.line1.Some? {
      e := e.Set("#l1", "line1", ":l1", S(req.line1.value));
    }
    ExpressionStep(NO_CLAUSES, cols, vals, 1);
    if req.line2.Some? {
      e := e.Set("#l2", "line2", ":l2", S(req.line2.value));
    }
    ExpressionStep(NO_CLAUSES, cols, vals, 2);
    if req.city.Some? {
      e := e.Set("#city", "city", ":city", S(req.city.value));
    }
    ExpressionStep(NO_CLAUSES, cols, vals, 3);
  }

  method BuildPlaceClauses(req: UpdateAddressRequest, e0: Expression) returns (e: Expression)
    requires e0 == ExpressionOf(NO_CLAUSES, ADDRESS_COLUMNS[..4], AddressValues(req)[..4])
    ensures e == ExpressionOf(NO_CLAUSES, ADDRESS_COLUMNS[..8], AddressValues(req)[..8])
  {
    ghost var cols, vals := ADDRESS_COLUMNS, AddressValues(req);
    e := e0;
    hide ExpressionOf;
    if req.state.Some? {
      e := e.Set("#state", "state", ":state", S(req.state.value));
    }
    ExpressionStep(NO_CLAUSES, cols, vals, 4);
    if req.zipCode.Some? {
      e := e.Set("#zc", "zip_code", ":zc", S(req.zipCode.value));
    }
    ExpressionStep(NO_CLAUSES, cols, vals, 5);
    if req.country.Some? {
      e := e.Set("#country", "country", ":country", S(req.country.value));
    }
    ExpressionStep(NO_CLAUSES, cols, vals, 6);
    if req.isDefault.Some? {
      e := e.Set("#isd", "is_default", ":isd", Bool(req.isDefault.value));
    }
    ExpressionStep(NO_CLAUSES, cols, vals, 7);
  }

  /** The built expression is accepted exactly when the request supplies a field, and then
      overwrites exactly the supplied ones; otherwise it has no clause. */
  lemma AddressUpdateMeansPatch(req: UpdateAddressRequest)
    ensures var e := ExpressionOf(NO_CLAUSES, ADDRESS_COLUMNS, AddressValues(req));
      && (WellFormed(e.ToUpdate(), Exists) <==> AddressPatch(req) != map[])
      && (AddressPatch(req) != map[] ==>
            forall row :: ApplyTo(e.ToUpdate(), Exists, row) == row + AddressPatch(req))
      && (e.sets == [] <==> AddressPatch(req) == map[])
  {
    AddressColumnsDistinct();
    hide AddressValues, ADDRESS_COLUMNS, ExpressionOf, PatchOf;
    var e := ExpressionOf(NO_CLAUSES, ADDRESS_COLUMNS, AddressValues(req));
    ColumnsBuild(NO_CLAUSES, ADDRESS_COLUMNS, AddressValues(req));
    if AddressPatch(req) != map[] {
      BuiltUpdateMeansPatch(e, Exists, AddressPatch(req), {}, {});
    }
  }

  /** What an address update asks for, attribute by attribute. */
  ghost predicate AddressOverwritten(row: Item, row': Item, req: UpdateAddressRequest) {
    && Attribute(row', "alias") == TextOr(req.alias, Attribute(row, "alias"))
    && Attribute(row', "line1") == TextOr(req.line1, Attribute(row, "line1"))
    && Attribute(row', "line2") == TextOr(req.line2, Attribute(row, "line2"))
    && Attribute(row', "city") == TextOr(req.city, Attribute(row, "city"))
    && Attribute(row', "state") == TextOr(req.state, Attribute(row, "state"))
    && Attribute(row', "zip_code") == TextOr(req.zipCode, Attribute(row, "zip_code"))
    && Attribute(row', "country") == TextOr(req.country, Attribute(row, "country"))
    && Attribute(row', "is_default") == FlagOr(req.isDefault, Attribute(row, "is_default"))
    && forall attr | attr !in {"alias", "line1", "line2", "city", "state", "zip_code", "country", "is_default"} ::
         Attribute(row', attr) == Attribute(row, attr)
  }

  lemma AddressColumnAttrs()
    ensures var cols := ADDRESS_COLUMNS;
      && |cols| == 8
      && cols[0].attr == "alias" && cols[1].attr == "line1" && cols[2].attr == "line2" && cols[3].attr == "city"
      && cols[4].attr == "state" && cols[5].attr == "zip_code" && cols[6].attr == "country"
      && cols[7].attr == "is_default"
      && AttrsOf(cols) == {"alias", "line1", "line2", "city", "state", "zip_code", "country", "is_default"}
  {
    var cols := ADDRESS_COLUMNS;
    assert cols == [cols[0], cols[1], cols[2], cols[3], cols[4], cols[5], cols[6], cols[7]];
    assert AttrsOf(cols) == {cols[0].attr, cols[1].attr, cols[2].attr, cols[3].attr, cols[4].attr, cols[5].attr,
                             cols[6].attr, cols[7].attr};
  }

  lemma AddressIsOverwritten(row: Item, req: UpdateAddressRequest)
    ensures AddressOverwritten(row, row + AddressPatch(req), req)
  {
    hide PatchOf, DistinctColumns, ADDRESS_COLUMNS, AttrsOf, Attribute;
    AddressColumnsDistinct();
    AddressColumnAttrs();
    OverwrittenAt(row, ADDRESS_COLUMNS, AddressValues(req));
  }

  /** An address update does to each attribute what its request asks for, and nothing else. */
  lemma AddressOverwrites(row: Item, row': Item, req: UpdateAddressRequest)
    ensures AddressOverwritten(row, row', req) <==> row' == row + AddressPatch(req)
  {
    hide AddressPatch, TextOr, FlagOr;
    AddressIsOverwritten(row, req);
    if AddressOverwritten(row, row', req) {
      SameAttributes(row', row + AddressPatch(req));
    }
  }

  function MergedAddress(a: UpdateAddressRequest, b: UpdateAddressRequest): UpdateAddressRequest {
    UpdateAddressRequest(
      Later(a.alias, b.alias), Later(a.line1, b.line1), Later(a.line2, b.line2), Later(a.city, b.city),
      Later(a.state, b.state), Later(a.zipCode, b.zipCode), Later(a.country, b.country),
      Later(a.isDefault, b.isDefault))
  }

  /** Two address updates in a row are one update by the right-biased merge. */
  lemma AddressPatchesMerge(row: Item, a: UpdateAddressRequest, b: UpdateAddressRequest)
    ensures row + AddressPatch(a) + AddressPatch(b) == row + AddressPatch(MergedAddress(a, b))
  {
    AddressColumnsDistinct();
    AddressValuesMerge(a, b);
    hide ADDRESS_COLUMNS, PatchOf, DistinctColumns, AddressValues, MergedAddress;
    PatchesMerge(ADDRESS_COLUMNS, AddressValues(a), AddressValues(b), AddressValues(MergedAddress(a, b)));
    assert row + AddressPatch(a) + AddressPatch(b) == row + (AddressPatch(a) + AddressPatch(b));
  }

  lemma AddressValuesMerge(a: UpdateAddressRequest, b: UpdateAddressRequest)
    ensures forall i | 0 <= i < |ADDRESS_COLUMNS| ::
              AddressValues(MergedAddress(a, b))[i] == Later(AddressValues(a)[i], AddressValues(b)[i])
  {
    TextLater(a.alias, b.alias);
    TextLater(a.line1, b.line1);
    TextLater(a.line2, b.line2);
    TextLater(a.city, b.city);
    TextLater(a.state, b.state);
    TextLater(a.zipCode, b.zipCode);
    TextLater(a.country, b.country);
    assert Flagged(Later(a.isDefault, b.isDefault)) == Later(Flagged(a.isDefault), Flagged(b.isDefault));
    hide Later, Str, Flagged;
  }

  lemma TextLater(a: Option<string>, b: Option<string>)
    ensures Str(Later(a, b)) == Later(Str(a), Str(b))
  {
  }

  lemma PatchedDefault(row: Item, req: UpdateAddressRequest)
    ensures BoolAttr(row + AddressPatch(req), "is_default") ==
              if req.isDefault.Some? then req.isDefault.value else BoolAttr(row, "is_default")
    ensures AddressPatch(req) == map[] ==> req.isDefault.None?
  {
    AddressColumnsDistinct();
    PatchOfAt(ADDRESS_COLUMNS, AddressValues(req), 7);
    hide PatchOf;
    assert Attribute(AddressPatch(req), "is_default") == Flagged(req.isDefault);
    hide AddressPatch;
  }

  // ---------- what each call does to the table ----------

  function Flip(t: Table, pk: string, prefix: string, target: Key, now: string): Table {
    if Flippable(t, pk, prefix, target) then Flipped(t, pk, prefix, target, now) else t
  }

  /** The first write stores the row; if it is to be the default, a flip follows. */
  function Saved(t: Table, pk: string, prefix: string, k: Key, row: Item, flip: bool, now: string): Table {
    if flip then Flip(t[k := row], pk, prefix, k, now) else t[k := row]
  }

  function AddressAdded(t: Table, id: string, a: Address, now: string): Table {
    var k := AddressKey(id, a.addressId);
    if k in t then t else Saved(t, AccountPK(id), ADDRESSES, k, AddressRow(a), a.isDefault, now)
  }

  function AddressUpdated(t: Table, id: string, addressId: string, req: UpdateAddressRequest, now: string): Table {
    var k := AddressKey(id, addressId);
    if AddressPatch(req) == map[] || k !in t then t
    else Saved(t, AccountPK(id), ADDRESSES, k, t[k] + AddressPatch(req), req.isDefault == Some(true), now)
  }

  function PaymentUpserted(t: Table, id: string, m: PaymentMethod, isCreate: bool, now: string): Table {
    var k := PaymentKey(id, m.paymentId);
    if (k in t) == isCreate then t
    else Saved(t, AccountPK(id), PAYMENTS, k, PaymentRow(m), m.isDefault, now)
  }

  // ---------- at most one default ----------

  ghost predicate OneDefault(t: Table) {
    forall pk :: AtMostOne(t, pk, ADDRESSES) && AtMostOne(t, pk, PAYMENTS)
  }

  ghost predicate Family(prefix: string) {
    prefix == ADDRESSES || prefix == PAYMENTS
  }

  lemma FamiliesDisjoint(k: Key)
    ensures !(ADDRESSES <= k.sk && PAYMENTS <= k.sk)
  {
    assert ADDRESSES[0] != PAYMENTS[0];
  }

  /** Between the two writes of a call the family has at most one default exactly when the row
      is no default or no other row is: storing a new default while another is in place leaves
      two until the flip. */
  lemma DefaultsBetweenWrites(t: Table, pk: string, prefix: string, k: Key, row: Item)
    requires AtMostOne(t, pk, prefix) && Matches(k, pk, prefix)
    ensures AtMostOne(t[k := row], pk, prefix)
       <==> !BoolAttr(row, "is_default") || Defaults(t, pk, prefix) <= {k}
    ensures |Defaults(t[k := row], pk, prefix) - {k}| <= 1
  {
    DefaultsAfterWrite(t, pk, prefix, k, row);
    hide BoolAttr, Defaults, Matches;
    var d, d1 := Defaults(t, pk, prefix), Defaults(t[k := row], pk, prefix);
    var others := d - {k};
    assert d <= {k} <==> others == {};
    assert d1 - {k} == others;
    if others != {} {
      var a :| a in others;
      assert others == {a};
      assert d1 == {a} + if BoolAttr(row, "is_default") then {k} else {};
    }
  }

  lemma DefaultsAfterWrite(t: Table, pk: string, prefix: string, k: Key, row: Item)
    requires Matches(k, pk, prefix)
    ensures Defaults(t[k := row], pk, prefix)
         == Defaults(t, pk, prefix) - {k} + if BoolAttr(row, "is_default") then {k} else {}
  {
  }

  /** A customer with a default address who adds another default one has two in between. */
  lemma TwoDefaultsInBetween(first: Address, second: Address)
    requires first.isDefault && second.isDefault && first.addressId != second.addressId
    ensures var t := map[AddressKey("a", first.addressId) := AddressRow(first)];
      && AtMostOne(t, AccountPK("a"), ADDRESSES)
      && !AtMostOne(t[AddressKey("a", second.addressId) := AddressRow(second)], AccountPK("a"), ADDRESSES)
  {
    hide AddressRow, BoolAttr, AccountPK, ADDRESSES;
    var k1, k2 := AddressKey("a", first.addressId), AddressKey("a", second.addressId);
    var t := map[k1 := AddressRow(first)];
    PrefixCancels(ADDRESSES, first.addressId, second.addressId);
    RowsShowDefault(first, NO_PAYMENT);
    RowsShowDefault(second, NO_PAYMENT);
    assert k1 in Defaults(t, AccountPK("a"), ADDRESSES);
    DefaultsBetweenWrites(t, AccountPK("a"), ADDRESSES, k2, AddressRow(second));
  }

  /** Writing a row and, for a new default, flipping keeps one default per family, and the flip
      is a transaction of at most two rows that makes the row the only default. */
  lemma SavingKeepsOneDefault(t: Table, pk: string, prefix: string, k: Key, row: Item, flip: bool, now: string)
    requires OneDefault(t) && Family(prefix) && Matches(k, pk, prefix)
    requires flip ==> BoolAttr(row, "is_default")
    requires !flip && BoolAttr(row, "is_default") ==> k in Defaults(t, pk, prefix)
    ensures OneDefault(Saved(t, pk, prefix, k, row, flip, now))
    ensures flip ==> Defaults(Saved(t, pk, prefix, k, row, flip, now), pk, prefix) == {k}
    ensures flip ==> Flippable(t[k := row], pk, prefix, k) && |Defaults(t[k := row], pk, prefix) - {k}| <= 1
  {
    hide BoolAttr, ADDRESSES, PAYMENTS;
    var t1, t2 := t[k := row], Saved(t, pk, prefix, k, row, flip, now);
    assert AtMostOne(t, pk, prefix);
    DefaultsBetweenWrites(t, pk, prefix, k, row);
    if flip {
      FlipLeavesOne(t1, pk, prefix, k, now);
    }
    hide Flipped, Saved;
    assert AtMostOne(t2, pk, prefix) by { FamilyAfterSaving(t, pk, prefix, k, row, flip, now); }
    forall pk2 ensures AtMostOne(t2, pk2, ADDRESSES) && AtMostOne(t2, pk2, PAYMENTS) {
      OtherFamilyAfterSaving(t, pk, prefix, k, row, flip, now, pk2, ADDRESSES);
      OtherFamilyAfterSaving(t, pk, prefix, k, row, flip, now, pk2, PAYMENTS);
      assert AtMostOne(t, pk2, ADDRESSES) && AtMostOne(t, pk2, PAYMENTS);
    }
  }

  lemma FamilyAfterSaving(t: Table, pk: string, prefix: string, k: Key, row: Item, flip: bool, now: string)
    requires AtMostOne(t, pk, prefix) && Matches(k, pk, prefix)
    requires flip ==> BoolAttr(row, "is_default")
    requires !flip && BoolAttr(row, "is_default") ==> k in Defaults(t, pk, prefix)
    ensures AtMostOne(Saved(t, pk, prefix, k, row, flip, now), pk, prefix)
  {
    hide BoolAttr, Flipped;
    DefaultsBetweenWrites(t, pk, prefix, k, row);
    if flip {
      FlipLeavesOne(t[k := row], pk, prefix, k, now);
    }
  }

  lemma OtherFamilyAfterSaving(
    t: Table, pk: string, prefix: string, k: Key, row: Item, flip: bool, now: string, pk2: string, prefix2: string)
    requires Family(prefix) && Family(prefix2) && Matches(k, pk, prefix)
    ensures pk2 != pk || prefix2 != prefix ==>
              Defaults(Saved(t, pk, prefix, k, row, flip, now), pk2, prefix2) == Defaults(t, pk2, prefix2)
  {
    if pk2 != pk || prefix2 != prefix {
      forall k2: Key ensures !(Matches(k2, pk, prefix) && Matches(k2, pk2, prefix2)) {
        FamiliesDisjoint(k2);
      }
      hide BoolAttr, Flipped, ADDRESSES, PAYMENTS;
      assert !Matches(k, pk2, prefix2);
      assert Defaults(t[k := row], pk2, prefix2) == Defaults(t, pk2, prefix2);
      if flip && Flippable(t[k := row], pk, prefix, k) {
        FlipElsewhere(t[k := row], pk, prefix, k, now, pk2, prefix2);
      }
    }
  }

  // ---------- sequences of calls ----------

  datatype Call =
    | AddsAddress(id: string, address: Address, now: string)
    | UpdatesAddress(id: string, addressId: string, req: UpdateAddressRequest, now: string)
    | DeletesAddress(id: string, addressId: string)
    | UpsertsPayment(id: string, payment: PaymentMethod, isCreate: bool, now: string)
    | DeletesPayment(id: string, paymentId: string)

  function After(t: Table, call: Call): Table {
    match call
    case AddsAddress(id, a, now) => AddressAdded(t, id, a, now)
    case UpdatesAddress(id, addressId, req, now) => AddressUpdated(t, id, addressId, req, now)
    case DeletesAddress(id, addressId) => t - {AddressKey(id, addressId)}
    case UpsertsPayment(id, m, isCreate, now) => PaymentUpserted(t, id, m, isCreate, now)
    case DeletesPayment(id, paymentId) => t - {PaymentKey(id, paymentId)}
  }

  function AfterAll(t: Table, calls: seq<Call>): Table {
    if calls == [] then t else After(AfterAll(t, calls[..|calls| - 1]), calls[|calls| - 1])
  }

  lemma DeletingKeepsOneDefault(t: Table, k: Key)
    requires OneDefault(t)
    ensures OneDefault(t - {k})
  {
    hide BoolAttr, ADDRESSES, PAYMENTS;
    forall pk ensures AtMostOne(t - {k}, pk, ADDRESSES) && AtMostOne(t - {k}, pk, PAYMENTS) {
      assert AtMostOne(t, pk, ADDRESSES) && AtMostOne(t, pk, PAYMENTS);
      assert Defaults(t - {k}, pk, ADDRESSES) <= Defaults(t, pk, ADDRESSES);
      assert Defaults(t - {k}, pk, PAYMENTS) <= Defaults(t, pk, PAYMENTS);
    }
  }

  lemma CallKeepsOneDefault(t: Table, call: Call)
    requires OneDefault(t)
    ensures OneDefault(After(t, call))
  {
    hide Saved, BoolAttr, AddressRow, PaymentRow, AddressPatch, OneDefault, ADDRESSES, PAYMENTS;
    match call
    case AddsAddress(id, a, now) =>
      RowsShowDefault(a, NO_PAYMENT);
      var k := AddressKey(id, a.addressId);
      if k !in t {
        SavingKeepsOneDefault(t, AccountPK(id), ADDRESSES, k, AddressRow(a), a.isDefault, now);
      }
    case UpdatesAddress(id, addressId, req, now) =>
      var k := AddressKey(id, addressId);
      if k in t && AddressPatch(req) != map[] {
        PatchedDefault(t[k], req);
        SavingKeepsOneDefault(t, AccountPK(id), ADDRESSES, k, t[k] + AddressPatch(req),
                              req.isDefault == Some(true), now);
      }
    case UpsertsPayment(id, m, isCreate, now) =>
      RowsShowDefault(NO_ADDRESS, m);
      SavingKeepsOneDefault(t, AccountPK(id), PAYMENTS, PaymentKey(id, m.paymentId), PaymentRow(m), m.isDefault, now);
    case DeletesAddress(id, addressId) => DeletingKeepsOneDefault(t, AddressKey(id, addressId));
    case DeletesPayment(id, paymentId) => DeletingKeepsOneDefault(t, PaymentKey(id, paymentId));
  }

  /** Any sequence of undisturbed calls keeps at most one default in every family. */
  lemma {:induction false} CallsKeepOneDefault(t: Table, calls: seq<Call>)
    requires OneDefault(t)
    ensures OneDefault(AfterAll(t, calls))
  {
    hide OneDefault, After;
    if calls != [] {
      CallsKeepOneDefault(t, calls[..|calls| - 1]);
      CallKeepsOneDefault(AfterAll(t, calls[..|calls| - 1]), calls[|calls| - 1]);
    }
  }

  // ---------- when a family loses its default ----------

  /** The calls that take the flag from, or remove, the default row `d`. */
  predicate Undefaults(call: Call, d: Key) {
    match call
    case AddsAddress(_, _, _) => false
    case UpdatesAddress(id, addressId, req, _) => AddressKey(id, addressId) == d && req.isDefault == Some(false)
    case DeletesAddress(id, addressId) => AddressKey(id, addressId) == d
    case UpsertsPayment(id, m, isCreate, _) => PaymentKey(id, m.paymentId) == d && !isCreate && !m.isDefault
    case DeletesPayment(id, paymentId) => PaymentKey(id, paymentId) == d
  }

  /** What saving a row leaves as defaults of a family with the single default `d`. */
  lemma DefaultsAfterSaving(
    t: Table, pk: string, prefix: string, k: Key, row: Item, flip: bool, now: string,
    pk2: string, prefix2: string, d: Key)
    requires OneDefault(t) && Family(prefix) && Family(prefix2) && Matches(k, pk, prefix)
    requires Defaults(t, pk2, prefix2) == {d}
    requires flip ==> BoolAttr(row, "is_default")
    requires !flip && BoolAttr(row, "is_default") ==> k in Defaults(t, pk, prefix)
    ensures Defaults(Saved(t, pk, prefix, k, row, flip, now), pk2, prefix2) == {} <==>
              k == d && !BoolAttr(row, "is_default")
  {
    hide BoolAttr, ADDRESSES, PAYMENTS, OneDefault, Family;
    OtherFamilyAfterSaving(t, pk, prefix, k, row, flip, now, pk2, prefix2);
    if pk2 == pk && prefix2 == prefix {
      SavingKeepsOneDefault(t, pk, prefix, k, row, flip, now);
      DefaultsAfterWrite(t, pk, prefix, k, row);
      var after := Defaults(Saved(t, pk, prefix, k, row, flip, now), pk, prefix);
      assert after == if flip then {k} else {d} - {k} + if BoolAttr(row, "is_default") then {k} else {};
      EmptyAfter(d, k, flip, BoolAttr(row, "is_default"));
    } else {
      OtherFamilyDefault(t, pk, prefix, k, pk2, prefix2, d);
      assert Defaults(Saved(t, pk, prefix, k, row, flip, now), pk2, prefix2) == {d};
      assert d in {d};
    }
    hide Defaults, Matches;
  }

  lemma EmptyAfter(d: Key, k: Key, flip: bool, on: bool)
    requires flip ==> on
    ensures (if flip then {k} else {d} - {k} + if on then {k} else {}) == {} <==> k == d && !on
  {
    assert k in {k} && (k != d ==> d in {d} - {k});
  }

  lemma OtherFamilyDefault(t: Table, pk: string, prefix: string, k: Key, pk2: string, prefix2: string, d: Key)
    requires Family(prefix) && Family(prefix2) && Matches(k, pk, prefix) && d in Defaults(t, pk2, prefix2)
    requires pk2 != pk || prefix2 != prefix
    ensures k != d
  {
    FamiliesDisjoint(k);
    hide BoolAttr;
  }

  lemma DefaultsAfterDelete(t: Table, k: Key, pk: string, prefix: string, d: Key)
    requires Defaults(t, pk, prefix) == {d}
    ensures Defaults(t - {k}, pk, prefix) == {} <==> k == d
  {
    hide BoolAttr;
    assert d in Defaults(t, pk, prefix);
    assert Defaults(t - {k}, pk, prefix) == Defaults(t, pk, prefix) - {k};
  }

  /** An undisturbed call leaves a family that has a default without one exactly when it deletes
      the default or writes it back without the flag. */
  lemma DefaultLostExactly(t: Table, call: Call, pk: string, prefix: string, d: Key)
    requires OneDefault(t) && Family(prefix) && Defaults(t, pk, prefix) == {d}
    ensures Defaults(After(t, call), pk, prefix) == {} <==> Undefaults(call, d)
  {
    hide Saved, BoolAttr, AddressRow, PaymentRow, AddressPatch, OneDefault, ADDRESSES, PAYMENTS, AccountPK;
    assert d in t by { DefaultIsThere(t, pk, prefix, d); }
    match call
    case AddsAddress(id, a, now) =>
      RowsShowDefault(a, NO_PAYMENT);
      var k := AddressKey(id, a.addressId);
      if k !in t {
        DefaultsAfterSaving(t, AccountPK(id), ADDRESSES, k, AddressRow(a), a.isDefault, now, pk, prefix, d);
      }
    case UpdatesAddress(id, addressId, req, now) =>
      var k := AddressKey(id, addressId);
      UpdateLosesDefault(t, id, addressId, req, now, pk, prefix, d);
    case UpsertsPayment(id, m, isCreate, now) =>
      RowsShowDefault(NO_ADDRESS, m);
      var k := PaymentKey(id, m.paymentId);
      if (k in t) != isCreate {
        DefaultsAfterSaving(t, AccountPK(id), PAYMENTS, k, PaymentRow(m), m.isDefault, now, pk, prefix, d);
      }
    case DeletesAddress(id, addressId) => DefaultsAfterDelete(t, AddressKey(id, addressId), pk, prefix, d);
    case DeletesPayment(id, paymentId) => DefaultsAfterDelete(t, PaymentKey(id, paymentId), pk, prefix, d);
  }

  lemma DefaultIsThere(t: Table, pk: string, prefix: string, d: Key)
    requires Defaults(t, pk, prefix) == {d}
    ensures d in t && Matches(d, pk, prefix) && BoolAttr(t[d], "is_default")
  {
    assert d in Defaults(t, pk, prefix);
  }

  lemma UpdateLosesDefault(
    t: Table, id: string, addressId: string, req: UpdateAddressRequest, now: string, pk: string, prefix: string, d: Key)
    requires OneDefault(t) && Family(prefix) && Defaults(t, pk, prefix) == {d}
    ensures Defaults(AddressUpdated(t, id, addressId, req, now), pk, prefix) == {} <==>
              AddressKey(id, addressId) == d && req.isDefault == Some(false)
  {
    hide Saved, BoolAttr, AddressPatch, OneDefault, ADDRESSES, PAYMENTS, AccountPK;
    DefaultIsThere(t, pk, prefix, d);
    var k := AddressKey(id, addressId);
    PatchedDefault(map[], req);
    if k in t && AddressPatch(req) != map[] {
      PatchedDefault(t[k], req);
      DefaultsAfterSaving(t, AccountPK(id), ADDRESSES, k, t[k] + AddressPatch(req), req.isDefault == Some(true), now,
                          pk, prefix, d);
    }
  }

  // ---------- the repository ----------

  function Identified(a: Address, freshId: string): Address {
    if a.addressId == "" then a.(addressId := "addr_" + freshId) else a
  }

  function IdentifiedPayment(m: PaymentMethod, freshId: string): PaymentMethod {
    if m.paymentId == "" then m.(paymentId := "pay_" + freshId) else m
  }

  /** Where an item without an id goes. */
  function FreshAddressKey(id: string, freshId: string): Key {
    Key("ACCOUNT#" + id, "ADDR#addr_" + freshId)
  }

  function FreshPaymentKey(id: string, freshId: string): Key {
    Key("ACCOUNT#" + id, "PAY#pay_" + freshId)
  }

  lemma FreshKeys(id: string, freshId: string)
    ensures AddressKey(id, "addr_" + freshId) == FreshAddressKey(id, freshId)
    ensures PaymentKey(id, "pay_" + freshId) == FreshPaymentKey(id, freshId)
  {
    assert "ADDR#" + "addr_" == "ADDR#addr_" && "PAY#" + "pay_" == "PAY#pay_";
    assert "ADDR#" + ("addr_" + freshId) == "ADDR#" + "addr_" + freshId;
    assert "PAY#" + ("pay_" + freshId) == "PAY#" + "pay_" + freshId;
  }

  /** Different fresh ids give different keys. */
  lemma FreshKeysApart(id: string, x: string, y: string)
    ensures FreshAddressKey(id, x) == FreshAddressKey(id, y) <==> x == y
    ensures FreshPaymentKey(id, x) == FreshPaymentKey(id, y) <==> x == y
    ensures FreshAddressKey(id, x) != FreshPaymentKey(id, y)
  {
    PrefixCancels("ADDR#addr_", x, y);
    PrefixCancels("PAY#pay_", x, y);
    assert FreshAddressKey(id, x).sk[0] != FreshPaymentKey(id, y).sk[0];
  }

  /** An id is given to a nameless item only, is different for different fresh ids, and is all that
      changes. */
  lemma IdentifiedIsFresh(a: Address, m: PaymentMethod, freshId: string)
    ensures a.addressId != "" ==> Identified(a, freshId) == a
    ensures a.addressId == "" ==>
              && Identified(a, freshId).(addressId := "") == a
              && forall id :: AddressKey(id, Identified(a, freshId).addressId) == FreshAddressKey(id, freshId)
    ensures m.paymentId != "" ==> IdentifiedPayment(m, freshId) == m
    ensures m.paymentId == "" ==>
              && IdentifiedPayment(m, freshId).(paymentId := "") == m
              && forall id :: PaymentKey(id, IdentifiedPayment(m, freshId).paymentId) == FreshPaymentKey(id, freshId)
  {
    hide AddressKey, PaymentKey, FreshAddressKey, FreshPaymentKey;
    forall id: string ensures AddressKey(id, "addr_" + freshId) == FreshAddressKey(id, freshId) {
      FreshKeys(id, freshId);
    }
    forall id: string ensures PaymentKey(id, "pay_" + freshId) == FreshPaymentKey(id, freshId) {
      FreshKeys(id, freshId);
    }
  }

  /** Two nameless addresses, or payment methods, saved one after the other are both stored and
      both stay. */
  lemma NamelessItemsAllStored(
    t: Table, id: string, x: string, y: string, a: Address, b: Address, m: PaymentMethod, n: PaymentMethod,
    now: string, now2: string)
    requires a.addressId == b.addressId == "" && m.paymentId == n.paymentId == "" && x != y
    requires FreshAddressKey(id, x) !in t && FreshAddressKey(id, y) !in t
    requires FreshPaymentKey(id, x) !in t && FreshPaymentKey(id, y) !in t
    ensures var calls := [AddsAddress(id, Identified(a, x), now), AddsAddress(id, Identified(b, y), now2)];
      AfterAll(t, calls).Keys == t.Keys + {FreshAddressKey(id, x), FreshAddressKey(id, y)}
    ensures var calls := [UpsertsPayment(id, IdentifiedPayment(m, x), true, now),
                          UpsertsPayment(id, IdentifiedPayment(n, y), true, now2)];
      AfterAll(t, calls).Keys == t.Keys + {FreshPaymentKey(id, x), FreshPaymentKey(id, y)}
  {
    IdentifiedIsFresh(a, m, x);
    IdentifiedIsFresh(b, n, y);
    FreshKeysApart(id, x, y);
    hide Identified, IdentifiedPayment, FreshAddressKey, FreshPaymentKey, AddressKey, PaymentKey, After;
    TwoCalls(t, AddsAddress(id, Identified(a, x), now), AddsAddress(id, Identified(b, y), now2));
    TwoCalls(t, UpsertsPayment(id, IdentifiedPayment(m, x), true, now),
             UpsertsPayment(id, IdentifiedPayment(n, y), true, now2));
    var t1, t2 := After(t, AddsAddress(id, Identified(a, x), now)),
                  After(t, UpsertsPayment(id, IdentifiedPayment(m, x), true, now));
    NewItemsStored(t, id, Identified(a, x), IdentifiedPayment(m, x), now);
    NewItemsStored(t1, id, Identified(b, y), IdentifiedPayment(n, y), now2);
    NewItemsStored(t2, id, Identified(b, y), IdentifiedPayment(n, y), now2);
  }

  lemma TwoCalls(t: Table, first: Call, second: Call)
    ensures AfterAll(t, [first, second]) == After(After(t, first), second)
  {
    assert [first, second][..1] == [first] && [first][..0] == [];
    assert AfterAll(t, [first]) == After(t, first);
  }

  lemma NewItemsStored(t: Table, id: string, a: Address, m: PaymentMethod, now: string)
    ensures AddressKey(id, a.addressId) !in t ==>
              After(t, AddsAddress(id, a, now)).Keys == t.Keys + {AddressKey(id, a.addressId)}
    ensures PaymentKey(id, m.paymentId) !in t ==>
              After(t, UpsertsPayment(id, m, true, now)).Keys == t.Keys + {PaymentKey(id, m.paymentId)}
  {
    SavedKeys(t, AccountPK(id), ADDRESSES, AddressKey(id, a.addressId), AddressRow(a), a.isDefault, now);
    SavedKeys(t, AccountPK(id), PAYMENTS, PaymentKey(id, m.paymentId), PaymentRow(m), m.isDefault, now);
    hide Saved, AddressRow, PaymentRow, AddressKey, PaymentKey;
  }

  lemma SavedKeys(t: Table, pk: string, prefix: string, k: Key, row: Item, flip: bool, now: string)
    ensures Saved(t, pk, prefix, k, row, flip, now).Keys == t.Keys + {k}
  {
    assert t[k := row].Keys == t.Keys + {k};
    assert Flipped(t[k := row], pk, prefix, k, now).Keys == t[k := row].Keys;
  }

  class SavedItemsRepo {
    const client: Client

    constructor (client: Client)
      ensures this.client == client
    {
      this.client := client;
    }

    method CreateAddress(id: string, address: Address, freshId: string) returns (s: Status, stored: Address)
      modifies client`table
      ensures stored == if address.addressId == "" then Identified(address, freshId) else address
      ensures stored.(addressId := address.addressId) == address
      ensures client.healthy && address.addressId == "" ==>
                (s.Done? <==> FreshAddressKey(id, freshId) !in old(client.table))
      ensures var k := AddressKey(id, stored.addressId);
        && (s.Done? ==> k !in old(client.table) && client.table == old(client.table)[k := AddressRow(stored)])
        && (s.Failed? ==> client.table == old(client.table) && s.error in {AlreadyExists, Internal})
        && (s == Failed(AlreadyExists) ==> k in old(client.table))
      ensures client.healthy ==> s != Failed(Internal)
    {
      hide AddressRow, AccountPK, AddressKey, FreshAddressKey;
      FreshKeys(id, freshId);
      stored := address;
      if stored.addressId == "" {
        stored := stored.(addressId := "addr_" + freshId);
      }
      var w := client.WriteRowIf(AddressKey(id, stored.addressId), AddressRow(stored), NotExists);
      match w
      case Written => s := Done;
      case ConditionFailed(_) => s := Failed(AlreadyExists);
      case _ => s := Failed(Internal);
    }

    /** A request that supplies nothing writes nothing, whether or not the address exists. */
    method UpdateAddress(id: string, addressId: string, req: UpdateAddressRequest) returns (s: Status)
      modifies client`table
      ensures var k, t := AddressKey(id, addressId), old(client.table);
        && (AddressPatch(req) == map[] ==> s.Done? && client.table == t)
        && (s.Done? && AddressPatch(req) != map[] ==> k in t && client.table == t[k := t[k] + AddressPatch(req)])
        && (s.Done? && AddressPatch(req) != map[] ==> AddressOverwritten(t[k], client.table[k], req))
        && (s.Failed? ==> client.table == t && s.error in {NotFound, Internal})
        && (s == Failed(NotFound) ==> k !in t)
      ensures client.healthy ==> s != Failed(Internal)
    {
      hide AddressPatch, ExpressionOf, WellFormed, ApplyTo, AddressValues, ADDRESS_COLUMNS, AccountPK,
           AddressOverwritten;
      if AddressKey(id, addressId) in client.table {
        AddressIsOverwritten(client.table[AddressKey(id, addressId)], req);
      }
      var e := BuildAddressUpdate(req);
      AddressUpdateMeansPatch(req);
      if |e.sets| == 0 {
        return Done;
      }
      var w := client.UpdateRow(AddressKey(id, addressId), e.ToUpdate(), Exists);
      match w
      case Written => return Done;
      case ConditionFailed(_) => return Failed(NotFound);
      case _ => return Failed(Internal);
    }

    method DeleteAddress(id: string, addressId: string) returns (s: Status)
      modifies client`table
      ensures client.table == if s.Done? then old(client.table) - {AddressKey(id, addressId)} else old(client.table)
      ensures client.healthy ==> s.Done?
    {
      var ok := client.DeleteRow(AddressKey(id, addressId));
      return if ok then Done else Failed(Internal);
    }

    method UpsertPayment(id: string, payment: PaymentMethod, freshId: string) returns (s: Status, stored: PaymentMethod)
      modifies client`table
      ensures stored == if payment.paymentId == "" then IdentifiedPayment(payment, freshId) else payment
      ensures stored.(paymentId := payment.paymentId) == payment
      ensures client.healthy && payment.paymentId == "" ==>
                (s.Done? <==> FreshPaymentKey(id, freshId) !in old(client.table))
      ensures var k, isCreate := PaymentKey(id, stored.paymentId), payment.paymentId == "";
        && (s.Done? ==> (k in old(client.table)) != isCreate
                        && client.table == old(client.table)[k := PaymentRow(stored)])
        && (s.Failed? ==> client.table == old(client.table) && s.error in {AlreadyExists, NotFound, Internal})
        && (s == Failed(AlreadyExists) ==> isCreate && k in old(client.table))
        && (s == Failed(NotFound) ==> !isCreate && k !in old(client.table))
      ensures client.healthy ==> s != Failed(Internal)
    {
      hide PaymentRow, AccountPK, PaymentKey, FreshPaymentKey;
      FreshKeys(id, freshId);
      stored := payment;
      var isCreate := stored.paymentId == "";
      if isCreate {
        stored := stored.(paymentId := "pay_" + freshId);
      }
      var condition := Exists;
      if isCreate {
        condition := NotExists;
      }
      var w := client.WriteRowIf(PaymentKey(id, stored.paymentId), PaymentRow(stored), condition);
      match w
      case Written => s := Done;
      case ConditionFailed(_) => s := Failed(if isCreate then AlreadyExists else NotFound);
      case _ => s := Failed(Internal);
    }

    method DeletePayment(id: string, paymentId: string) returns (s: Status)
      modifies client`table
      ensures client.table == if s.Done? then old(client.table) - {PaymentKey(id, paymentId)} else old(client.table)
      ensures client.healthy ==> s.Done?
    {
      var ok := client.DeleteRow(PaymentKey(id, paymentId));
      return if ok then Done else Failed(Internal);
    }
  }

  // ---------- the service ----------

  /** What a failed saving call may have left: nothing, or the first of its two writes. */
  ghost predicate HalfSaved(t: Table, t': Table, k: Key, row: Item, flip: bool) {
    t' == t || (flip && t' == t[k := row])
  }

  class SavedItemsService {
    const repo: SavedItemsRepo

    constructor (repo: SavedItemsRepo)
      ensures this.repo == repo
    {
      this.repo := repo;
    }

    /** Stores the address, and then, if it is the default, flips the default to it. */
    method AddAddress(id: string, address: Address, freshId: string, now: string)
      returns (s: Status, stored: Address)
      modifies repo.client`table, repo.client`journal
      ensures stored == if address.addressId == "" then Identified(address, freshId) else address
      ensures stored.(addressId := address.addressId) == address
      ensures address.addressId == "" && repo.client.healthy && OneDefault(old(repo.client.table)) ==>
                && (s.Done? <==> FreshAddressKey(id, freshId) !in old(repo.client.table))
                && FreshAddressKey(id, freshId) in repo.client.table
      ensures var k, t := AddressKey(id, stored.addressId), old(repo.client.table);
        && (s.Done? ==> k !in t && repo.client.table == After(t, AddsAddress(id, stored, now)))
        && (s.Failed? ==> HalfSaved(t, repo.client.table, k, AddressRow(stored), stored.isDefault))
        && (repo.client.healthy ==> repo.client.table == After(t, AddsAddress(id, stored, now)))
        && (repo.client.healthy && OneDefault(t) ==> s == if k in t then Failed(AlreadyExists) else Done)
    {
      hide AddressRow, AccountPK, OneDefault, BoolAttr, Flipped, Flippable, FreshAddressKey;
      IdentifiedIsFresh(address, NO_PAYMENT, freshId);
      NewItemsStored(repo.client.table, id, Identified(address, freshId), NO_PAYMENT, now);
      s, stored := repo.CreateAddress(id, address, freshId);
      var k := AddressKey(id, stored.addressId);
      RowsShowDefault(stored, NO_PAYMENT);
      ghost var t := old(repo.client.table);
      if s.Failed? {
        return;
      }
      if stored.isDefault {
        FlipIsDone(t, AccountPK(id), ADDRESSES, k, AddressRow(stored), now);
        s := SetDefault(id, ADDRESSES, stored.addressId, now);
      }
    }

    method UpdateAddress(id: string, addressId: string, req: UpdateAddressRequest, now: string) returns (s: Status)
      modifies repo.client`table, repo.client`journal
      ensures var k, t := AddressKey(id, addressId), old(repo.client.table);
        && (s.Done? ==> repo.client.table == After(t, UpdatesAddress(id, addressId, req, now)))
        && (s.Failed? && k !in t ==> repo.client.table == t)
        && (s.Failed? && k in t ==>
              HalfSaved(t, repo.client.table, k, t[k] + AddressPatch(req), req.isDefault == Some(true)))
        && (repo.client.healthy ==> repo.client.table == After(t, UpdatesAddress(id, addressId, req, now)))
        && (repo.client.healthy && OneDefault(t) ==>
              s == if k in t || AddressPatch(req) == map[] then Done else Failed(NotFound))
    {
      hide AddressPatch, AccountPK, OneDefault, BoolAttr, Flipped, Flippable;
      var k := AddressKey(id, addressId);
      ghost var t := old(repo.client.table);
      PatchedDefault(map[], req);
      s := repo.UpdateAddress(id, addressId, req);
      if s.Failed? {
        return;
      }
      if req.isDefault.Some? && req.isDefault.value {
        PatchedDefault(t[k], req);
        FlipIsDone(t, AccountPK(id), ADDRESSES, k, t[k] + AddressPatch(req), now);
        s := SetDefault(id, ADDRESSES, addressId, now);
      }
    }

    method DeleteAddress(id: string, addressId: string) returns (s: Status)
      modifies repo.client`table
      ensures repo.client.table ==
                if s.Done? then After(old(repo.client.table), DeletesAddress(id, addressId)) else old(repo.client.table)
      ensures repo.client.healthy ==> s.Done?
    {
      s := repo.DeleteAddress(id, addressId);
    }

    /** Creates or replaces the payment method, and then, if it is the default, flips to it. */
    method UpsertPayment(id: string, payment: PaymentMethod, freshId: string, now: string)
      returns (s: Status, stored: PaymentMethod)
      modifies repo.client`table, repo.client`journal
      ensures stored == if payment.paymentId == "" then IdentifiedPayment(payment, freshId) else payment
      ensures stored.(paymentId := payment.paymentId) == payment
      ensures payment.paymentId == "" && repo.client.healthy && OneDefault(old(repo.client.table)) ==>
                && (s.Done? <==> FreshPaymentKey(id, freshId) !in old(repo.client.table))
                && FreshPaymentKey(id, freshId) in repo.client.table
      ensures var k, t, isCreate := PaymentKey(id, stored.paymentId), old(repo.client.table), payment.paymentId == "";
        && (s.Done? ==>
              (k in t) != isCreate && repo.client.table == After(t, UpsertsPayment(id, stored, isCreate, now)))
        && (s.Failed? ==> HalfSaved(t, repo.client.table, k, PaymentRow(stored), stored.isDefault))
        && (repo.client.healthy ==> repo.client.table == After(t, UpsertsPayment(id, stored, isCreate, now)))
        && (repo.client.healthy && OneDefault(t) ==>
              s == if (k in t) != isCreate then Done else Failed(if isCreate then AlreadyExists else NotFound))
    {
      hide PaymentRow, AccountPK, OneDefault, BoolAttr, Flipped, Flippable, FreshPaymentKey;
      IdentifiedIsFresh(NO_ADDRESS, payment, freshId);
      NewItemsStored(repo.client.table, id, NO_ADDRESS, IdentifiedPayment(payment, freshId), now);
      s, stored := repo.UpsertPayment(id, payment, freshId);
      var k := PaymentKey(id, stored.paymentId);
      RowsShowDefault(NO_ADDRESS, stored);
      ghost var t := old(repo.client.table);
      if s.Failed? {
        return;
      }
      if stored.isDefault {
        FlipIsDone(t, AccountPK(id), PAYMENTS, k, PaymentRow(stored), now);
        s := SetDefault(id, PAYMENTS, stored.paymentId, now);
      }
    }

    method DeletePayment(id: string, paymentId: string) returns (s: Status)
      modifies repo.client`table
      ensures repo.client.table ==
                if s.Done? then After(old(repo.client.table), DeletesPayment(id, paymentId)) else old(repo.client.table)
      ensures repo.client.healthy ==> s.Done?
    {
      s := repo.DeletePayment(id, paymentId);
    }

    method SetDefault(id: string, prefix: string, itemId: string, now: string) returns (s: Status)
      modifies repo.client`table, repo.client`journal
      ensures var t, k := old(repo.client.table), Key(AccountPK(id), prefix + itemId);
        && (s.Done? ==> Flippable(t, AccountPK(id), prefix, k)
                        && repo.client.table == Flip(t, AccountPK(id), prefix, k, now))
        && (s.Failed? ==> repo.client.table == t)
        && (repo.client.healthy && Flippable(t, AccountPK(id), prefix, k) ==> s.Done?)
        && (repo.client.healthy ==> repo.client.table == Flip(t, AccountPK(id), prefix, k, now))
    {
      hide AccountPK, Flipped;
      s := DemoteAndPromoteDefault(repo.client, AccountPK(id), prefix, prefix + itemId, now);
    }
  }

  /** From a table with at most one default per family the flip after the write never fails for
      being too long. */
  lemma FlipIsDone(t: Table, pk: string, prefix: string, k: Key, row: Item, now: string)
    requires Family(prefix) && Matches(k, pk, prefix) && BoolAttr(row, "is_default")
    ensures OneDefault(t) ==> Flippable(t[k := row], pk, prefix, k)
  {
    hide BoolAttr;
    if OneDefault(t) {
      SavingKeepsOneDefault(t, pk, prefix, k, row, true, now);
    }
  }
}
