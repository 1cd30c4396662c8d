/** The default flip: one transaction demotes every other default of a key family and promotes
    the target (internal/db/payments.go). */
module DefaultFlip {
  import opened Basics
  import opened Dynamo

  // ---------- what a flip means ----------

  /** The rows of a family flagged as default. */
  function Defaults(t: Table, pk: string, prefix: string): set<Key> {
    set k | k in t && k.pk == pk && prefix <= k.sk && BoolAttr(t[k], "is_default")
  }

  ghost predicate AtMostOne(t: Table, pk: string, prefix: string) {
    forall a, b | a in Defaults(t, pk, prefix) && b in Defaults(t, pk, prefix) :: a == b
  }

  function Flag(on: bool, now: string): Item {
    map["is_default" := Bool(on), "updated_at" := S(now)]
  }

  function Flipped(t: Table, pk: string, prefix: string, target: Key, now: string): Table {
    map k | k in t ::
      if k == target then t[k] + Flag(true, now)
      else if k in Defaults(t, pk, prefix) then t[k] + Flag(false, now)
      else t[k]
  }

  /** The flip fits into one transaction. */
  predicate Flippable(t: Table, pk: string, prefix: string, target: Key) {
    target in t && |Defaults(t, pk, prefix) - {target}| < MAX_TRANSACT_ITEMS
  }

  lemma FlagShows(row: Item, on: bool, now: string)
    ensures BoolAttr(row + Flag(on, now), "is_default") == on
    ensures Attribute(row + Flag(on, now), "updated_at") == Some(S(now))
    ensures forall attr | attr != "is_default" && attr != "updated_at" ::
              Attribute(row + Flag(on, now), attr) == Attribute(row, attr)
  {
  }

  /** From any state, several defaults included, a flip leaves exactly the target as default of
      its family, stamps it and the rows it demotes, and changes nothing else. */
  lemma FlipLeavesOne(t: Table, pk: string, prefix: string, target: Key, now: string)
    requires target in t && target.pk == pk && prefix <= target.sk
    ensures var t' := Flipped(t, pk, prefix, target, now);
      && Defaults(t', pk, prefix) == {target} && AtMostOne(t', pk, prefix)
      && t'.Keys == t.Keys
      && (forall k | k in t && !Matches(k, pk, prefix) :: t'[k] == t[k])
      && (forall k, attr | k in t && attr != "is_default" && attr != "updated_at" ::
            Attribute(t'[k], attr) == Attribute(t[k], attr))
      && (forall k | k in Defaults(t, pk, prefix) + {target} :: Attribute(t'[k], "updated_at") == Some(S(now)))
      && (forall k | k in t && k !in Defaults(t, pk, prefix) + {target} :: t'[k] == t[k])
  {
    var t' := Flipped(t, pk, prefix, target, now);
    hide Flag, BoolAttr, Attribute;
    forall k | k in t
      ensures k in Defaults(t', pk, prefix) <==> k == target
      ensures k in Defaults(t, pk, prefix) + {target} ==> Attribute(t'[k], "updated_at") == Some(S(now))
      ensures forall attr | attr != "is_default" && attr != "updated_at" ::
                Attribute(t'[k], attr) == Attribute(t[k], attr)
    {
      FlagShows(t[k], true, now);
      FlagShows(t[k], false, now);
    }
  }

  /** A flip in one family does not show in another. */
  lemma FlipElsewhere(t: Table, pk: string, prefix: string, target: Key, now: string, pk2: string, prefix2: string)
    requires target in t && target.pk == pk && prefix <= target.sk
    requires forall k: Key :: !(Matches(k, pk, prefix) && Matches(k, pk2, prefix2))
    ensures Defaults(Flipped(t, pk, prefix, target, now), pk2, prefix2) == Defaults(t, pk2, prefix2)
  {
    var t' := Flipped(t, pk, prefix, target, now);
    hide Flag, BoolAttr;
    forall k | k in t && Matches(k, pk2, prefix2) ensures t'[k] == t[k] {
      assert !Matches(k, pk, prefix);
    }
  }

  // ---------- the transaction ----------

  function FlagUpdate(on: bool, value: string, now: string): Update {
    NO_CLAUSES.Set("#isd", "is_default", value, Bool(on)).Set("#ua", "updated_at", ":now", S(now)).ToUpdate()
  }

  function FlagItem(k: Key, on: bool, now: string): TransactItem {
    Modify(k, FlagUpdate(on, if on then ":true" else ":false", now), Exists)
  }

  lemma FlagUpdateMeans(on: bool, value: string, now: string)
    requires value != ":now"
    ensures WellFormed(FlagUpdate(on, value, now), Exists)
    ensures forall row :: ApplyTo(FlagUpdate(on, value, now), Exists, row) == row + Flag(on, now)
  {
    hide WellFormed, ApplyTo;
    TwoClausesMean("#isd", "is_default", value, Bool(on), "#ua", "updated_at", ":now", S(now), Exists);
  }

  function FlipItems(others: seq<Key>, target: Key, now: string): (items: seq<TransactItem>)
    ensures |items| == |others| + 1
  {
    Demotions(others, now) + [FlagItem(target, true, now)]
  }

  function Demotions(others: seq<Key>, now: string): seq<TransactItem> {
    seq(|others|, i requires 0 <= i < |others| => FlagItem(others[i], false, now))
  }

  ghost predicate FlipSet(t: Table, others: seq<Key>, pk: string, prefix: string, target: Key) {
    Distinct(others) && forall k :: k in others <==> k in Defaults(t, pk, prefix) - {target}
  }

  /** The transaction is refused if it is too long or the target is missing, and otherwise is a
      flip. */
  lemma FlipTransaction(t: Table, others: seq<Key>, pk: string, prefix: string, target: Key, now: string)
    requires FlipSet(t, others, pk, prefix, target)
    ensures |others| == |Defaults(t, pk, prefix) - {target}|
    ensures Transact(t, FlipItems(others, target, now)) ==
              if |others| >= MAX_TRANSACT_ITEMS then (Rejected, t)
              else if target !in t then (ConditionFailed(|others|), t)
              else (Written, Flipped(t, pk, prefix, target, now))
  {
    FlipSize(t, others, pk, prefix, target);
    FlipRefusals(t, others, pk, prefix, target, now);
    hide FlipItems, Sendable, FlipSet, Flipped, FirstRefused;
    if |others| < MAX_TRANSACT_ITEMS && target in t {
      FlipApplied(t, others, pk, prefix, target, now);
    }
  }

  lemma FlipSize(t: Table, others: seq<Key>, pk: string, prefix: string, target: Key)
    requires FlipSet(t, others, pk, prefix, target)
    ensures |others| == |Defaults(t, pk, prefix) - {target}|
  {
    hide Defaults;
    DistinctSize(others);
    assert SetOf(others) == Defaults(t, pk, prefix) - {target};
  }

  lemma FlipRefusals(t: Table, others: seq<Key>, pk: string, prefix: string, target: Key, now: string)
    requires FlipSet(t, others, pk, prefix, target)
    ensures var items := FlipItems(others, target, now);
      && (Sendable(items) <==> |others| < MAX_TRANSACT_ITEMS) && Expressible(items)
      && FirstRefused(t, items, 0) == if target in t then |items| else |others|
  {
    hide FlagUpdate, WellFormed, BoolAttr;
    FlipExpressible(others, target, now);
    var items := FlipItems(others, target, now);
    forall j | 0 <= j < |others| ensures Accepts(items[j], t) {
      assert others[j] in others;
      assert items[j] == FlagItem(others[j], false, now);
    }
    assert items[|others|] == FlagItem(target, true, now);
  }

  lemma FlipExpressible(others: seq<Key>, target: Key, now: string)
    ensures Expressible(FlipItems(others, target, now))
    ensures forall i, j | 0 <= i < j < |others| + 1 && Distinct(others) && target !in others ::
              KeyOf(FlipItems(others, target, now)[i]) != KeyOf(FlipItems(others, target, now)[j])
  {
    FlagUpdateMeans(false, ":false", now);
    FlagUpdateMeans(true, ":true", now);
    hide FlagUpdate, WellFormed;
    var items := FlipItems(others, target, now);
    assert forall op | op in items :: exists i :: 0 <= i < |items| && items[i] == op;
  }

  lemma FlipApplied(t: Table, others: seq<Key>, pk: string, prefix: string, target: Key, now: string)
    requires FlipSet(t, others, pk, prefix, target) && target in t
    requires Expressible(FlipItems(others, target, now))
    ensures ApplyAll(t, FlipItems(others, target, now)) == Flipped(t, pk, prefix, target, now)
  {
    hide FlipItems, FlipSet, Flipped, ApplyAll;
    var t' := ApplyAll(t, FlipItems(others, target, now));
    forall k ensures Row(t', k) == Row(Flipped(t, pk, prefix, target, now), k) {
      FlipAppliedAt(t, others, pk, prefix, target, now, k);
    }
    SameRows(t', Flipped(t, pk, prefix, target, now));
  }

  lemma FlipAppliedAt(t: Table, others: seq<Key>, pk: string, prefix: string, target: Key, now: string, k: Key)
    requires FlipSet(t, others, pk, prefix, target) && target in t
    requires Expressible(FlipItems(others, target, now))
    ensures Row(ApplyAll(t, FlipItems(others, target, now)), k) == Row(Flipped(t, pk, prefix, target, now), k)
  {
    var items := FlipItems(others, target, now);
    FlipExpressible(others, target, now);
    hide FlagUpdate, WellFormed, ApplyTo, Flag, BoolAttr, ApplyAll, Distinct;
    if k == target || k in others {
      var i := |others|;
      if k != target {
        i :| 0 <= i < |others| && others[i] == k;
      }
      assert items[i] == FlagItem(k, k == target, now);
      ApplyAllAt(t, items, i);
      FlagUpdateMeans(k == target, if k == target then ":true" else ":false", now);
    } else {
      forall op | op in items ensures KeyOf(op) != k {
        var i :| 0 <= i < |items| && items[i] == op;
      }
      ApplyAllElsewhere(t, items, k);
    }
  }

  // ---------- the repository helper ----------

  /** The defaults other than the target among the first rows queried. */
  function Demoted(t: Table, keys: seq<Key>, target: Key): seq<Key>
    requires forall k | k in keys :: k in t
  {
    if keys == [] then []
    else
      var front, last := Demoted(t, keys[..|keys| - 1], target), keys[|keys| - 1];
      if last == target || !BoolAttr(t[last], "is_default") then front else front + [last]
  }

  lemma {:induction false} DemotedAre(t: Table, keys: seq<Key>, target: Key)
    requires Distinct(keys) && forall k | k in keys :: k in t
    ensures Distinct(Demoted(t, keys, target))
    ensures forall k :: k in Demoted(t, keys, target) <==> k in keys && k != target && BoolAttr(t[k], "is_default")
  {
    if keys != [] {
      var front, last := keys[..|keys| - 1], keys[|keys| - 1];
      DemotedAre(t, front, target);
      assert keys == front + [last];
      assert last !in front;
    }
  }

  /** Queries the family, then demotes and promotes in one transaction. */
  method DemoteAndPromoteDefault(client: Client, pk: string, prefix: string, targetSK: string, now: string)
    returns (s: Status)
    modifies client`table, client`journal
    ensures var t, target := old(client.table), Key(pk, targetSK);
      && (s.Done? ==> Flippable(t, pk, prefix, target) && client.table == Flipped(t, pk, prefix, target, now))
      && (s.Failed? ==> client.table == t && s.error in {NotFound, Internal})
      && (s == Failed(NotFound) ==> target !in t)
      && (client.healthy && Flippable(t, pk, prefix, target) ==> s.Done?)
      && (client.healthy && target !in t && |Defaults(t, pk, prefix)| < MAX_TRANSACT_ITEMS ==> s == Failed(NotFound))
    ensures s.Done? ==> exists others ::
              && FlipSet(old(client.table), others, pk, prefix, Key(pk, targetSK))
              && client.journal == old(client.journal) + [FlipItems(others, Key(pk, targetSK), now)]
  {
    hide FlagItem, Flipped, Transact, FlipItems, Demoted;
    var ok, candidates, keys := client.Query(pk, prefix);
    if !ok {
      return Failed(Internal);
    }
    ghost var t, target := client.table, Key(pk, targetSK);
    ghost var others := Demoted(t, keys, target);
    DemotedAre(t, keys, target);
    DefaultsQueried(t, pk, prefix, keys);
    hide Enumerates, BoolAttr, Defaults;
    assert FlipSet(t, others, pk, prefix, target);
    var transactItems := FlipOf(candidates, keys, t, pk, targetSK, now);
    FlipTransaction(t, others, pk, prefix, target, now);
    FewOthers(t, pk, prefix, target);
    hide FlipSet;
    var w := client.TransactWrite(transactItems);
    match w
    case Written => return Done;
    case ConditionFailed(_) => return Failed(NotFound);
    case _ => return Failed(Internal);
  }

  /** One demotion per candidate flagged as default, except the target, then the promotion. */
  method FlipOf(
    candidates: seq<Item>, ghost keys: seq<Key>, ghost t: Table, pk: string, targetSK: string, now: string)
    returns (items: seq<TransactItem>)
    requires forall k | k in keys :: k in t && k.pk == pk
    requires candidates == ReturnedAll(t, keys)
    ensures items == FlipItems(Demoted(t, keys, Key(pk, targetSK)), Key(pk, targetSK), now)
  {
    hide FlagItem, Returned, BoolAttr, StrAttr, ReturnedAll;
    ghost var target := Key(pk, targetSK);
    items := [];
    for i := 0 to |candidates|
      invariant items == Demotions(Demoted(t, keys[..i], target), now)
    {
      var c := candidates[i];
      assert keys[..i + 1][..i] == keys[..i];
      assert keys[i] in keys;
      CandidateShows(keys[i], t[keys[i]]);
      if StrAttr(c, "SK") == targetSK || !BoolAttr(c, "is_default") {
        continue;
      }
      items := items + [FlagItem(Key(pk, StrAttr(c, "SK")), false, now)];
    }
    assert keys[..|candidates|] == keys;
    items := items + [FlagItem(Key(pk, targetSK), true, now)];
  }

  lemma FewOthers(t: Table, pk: string, prefix: string, target: Key)
    ensures target !in t ==> Defaults(t, pk, prefix) - {target} == Defaults(t, pk, prefix)
  {
  }

  lemma CandidateShows(k: Key, row: Item)
    ensures StrAttr(Returned(k, row), "SK") == k.sk
    ensures BoolAttr(Returned(k, row), "is_default") == BoolAttr(row, "is_default")
  {
  }

  lemma DefaultsQueried(t: Table, pk: string, prefix: string, keys: seq<Key>)
    requires Enumerates(keys, t, pk, prefix)
    ensures forall k :: k in Defaults(t, pk, prefix) <==> k in keys && k in t && BoolAttr(t[k], "is_default")
  {
  }
}
