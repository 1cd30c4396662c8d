/** Namespaced tags on the settings row: who may write which tag, the cap of twenty, and the
    count it is checked with (internal/api/settings.go). */
module Tags {
  import opened Basics
  import opened Dynamo
  import opened Accounts
  import opened Settings
  import Instants

  const MAX_TAGS := 20
  const MAX_TAG_LENGTH := 32

  // ---------- namespaces ----------

  const NAMESPACES: seq<string> := ["loyalty.", "marketing.", "support.", "system."]

  function NamespaceOf(service: string): Option<string> {
    if service == "loyalty-api" then Some(NAMESPACES[0])
    else if service == "marketing-api" || service == "promotions-api" then Some(NAMESPACES[1])
    else if service == "customer-servicing-api" then Some(NAMESPACES[2])
    else if service == "accounts-api" then Some(NAMESPACES[3])
    else None
  }

  predicate IsTagChar(c: char) {
    'a' <= c <= 'z' || '0' <= c <= '9' || c == '.' || c == '_'
  }

  predicate MatchesTagPattern(tag: string) {
    1 <= |tag| <= MAX_TAG_LENGTH && forall i | 0 <= i < |tag| :: IsTagChar(tag[i])
  }

  predicate InNamespace(tag: string, ns: string) {
    MatchesTagPattern(tag) && ns <= tag
  }

  predicate OwnedBy(ns: string, tags: seq<string>) {
    forall tag | tag in tags :: InNamespace(tag, ns)
  }

  /** No tag lies in two namespaces. */
  lemma NamespacesDisjoint(tag: string, i: nat, j: nat)
    requires i < |NAMESPACES| && j < |NAMESPACES|
    requires NAMESPACES[i] <= tag && NAMESPACES[j] <= tag
    ensures i == j
  {
    assert tag[0] == NAMESPACES[i][0] == NAMESPACES[j][0];
    assert tag[1] == NAMESPACES[i][1] == NAMESPACES[j][1];
  }

  method ValidateTagNamespace(prefix: string, add: seq<string>, remove: seq<string>) returns (ok: bool)
    ensures ok <==> OwnedBy(prefix, add) && OwnedBy(prefix, remove)
  {
    var all := add + remove;
    for i := 0 to |all|
      invariant forall j | 0 <= j < i :: InNamespace(all[j], prefix)
    {
      if !MatchesTagPattern(all[i]) || !(prefix <= all[i]) {
        assert all[i] in add || all[i] in remove;
        return false;
      }
    }
    assert forall tag | tag in add + remove :: InNamespace(tag, prefix);
    assert forall tag | tag in add || tag in remove :: tag in add + remove;
    return true;
  }

  // ---------- the expected count ----------

  /** How many entries of `add` are not stored yet, each occurrence counted. */
  function NewTags(current: set<string>, add: seq<string>): nat {
    if add == [] then 0
    else NewTags(current, add[..|add| - 1]) + if add[|add| - 1] in current then 0 else 1
  }

  function ExpectedCount(current: set<string>, add: seq<string>, remove: seq<string>): nat {
    |current - SetOf(remove)| + NewTags(current, add)
  }

  /** The entries of a list as the keys of a lookup table. */
  method IndexOf(list: seq<string>) returns (members: set<string>)
    ensures members == SetOf(list)
  {
    members := {};
    for i := 0 to |list|
      invariant members == SetOf(list[..i])
    {
      assert list[..i + 1] == list[..i] + [list[i]];
      SetOfAppend(list[..i], list[i]);
      members := members + {list[i]};
    }
    assert list[..|list|] == list;
  }

  method ExpectedTagCount(current: seq<string>, add: seq<string>, remove: seq<string>) returns (count: nat)
    ensures count == ExpectedCount(SetOf(current), add, remove)
  {
    var removeSet := IndexOf(remove);
    var existing := IndexOf(current);
    hide SetOf;
    count := 0;
    var todo := existing;
    while todo != {}
      invariant todo <= existing
      invariant count + |todo - removeSet| == |existing - removeSet|
    {
      var tag :| tag in todo;
      if tag !in removeSet {
        assert todo - removeSet == (todo - {tag} - removeSet) + {tag};
        count := count + 1;
      } else {
        assert todo - removeSet == todo - {tag} - removeSet;
      }
      todo := todo - {tag};
    }
    ghost var kept := count;
    for i := 0 to |add|
      invariant count == kept + NewTags(existing, add[..i])
    {
      assert add[..i + 1][..i] == add[..i];
      if add[i] !in existing {
        count := count + 1;
      }
    }
    assert add[..|add|] == add;
  }

  lemma {:induction false} NewTagsGrow(current: set<string>, add: seq<string>)
    requires Distinct(add)
    ensures |current + SetOf(add)| == |current| + NewTags(current, add)
  {
    if add == [] {
      assert current + SetOf(add) == current;
    } else {
      var n := |add| - 1;
      assert add == add[..n] + [add[n]] && add[n] !in add[..n];
      NewTagsGrow(current, add[..n]);
      NewTagsStep(current, add[..n], add[n]);
    }
  }

  lemma NewTagsStep(current: set<string>, front: seq<string>, last: string)
    requires last !in front && |current + SetOf(front)| == |current| + NewTags(current, front)
    ensures |current + SetOf(front + [last])| == |current| + NewTags(current, front + [last])
  {
    assert (front + [last])[..|front|] == front;
    SetOfAppend(front, last);
    GrowByOne(current + SetOf(front), last);
    assert current + (SetOf(front) + {last}) == current + SetOf(front) + {last};
  }

  lemma GrowByOne(tags: set<string>, tag: string)
    ensures |tags + {tag}| == |tags| + if tag in tags then 0 else 1
  {
    if tag in tags {
      assert tags + {tag} == tags;
    }
  }

  lemma {:induction false} NoRepeatsDistinct(tags: seq<string>)
    requires NoRepeats(tags)
    ensures Distinct(tags)
  {
    if tags != [] {
      var front, last := tags[..|tags| - 1], tags[|tags| - 1];
      assert tags == front + [last];
      SetNoLarger(front);
      SetOfAppend(front, last);
      assert last !in SetOf(front);
      NoRepeatsDistinct(front);
    }
  }

  lemma {:induction false} SetNoLarger(tags: seq<string>)
    ensures |SetOf(tags)| <= |tags|
  {
    if tags != [] {
      var front, last := tags[..|tags| - 1], tags[|tags| - 1];
      SetNoLarger(front);
      assert tags == front + [last];
      SetOfAppend(front, last);
    }
  }

  /** For a mutation DynamoDB accepts, the expected count is the size of the new tag set. */
  lemma ExpectedCountIsExact(current: set<string>, add: seq<string>, remove: seq<string>)
    requires AcceptableTags(add, remove)
    ensures ExpectedCount(current, add, remove) == |current + SetOf(add) - SetOf(remove)|
  {
    if remove == [] {
      NoRepeatsDistinct(add);
      NewTagsGrow(current, add);
      assert current + SetOf(add) - SetOf(remove) == current + SetOf(add);
      assert current - SetOf(remove) == current;
    } else {
      assert current + SetOf(add) - SetOf(remove) == current - SetOf(remove);
    }
  }

  // ---------- the cap under concurrency ----------

  /** A tag call between its read and its guarded write. */
  datatype Call = Call(add: seq<string>, remove: seq<string>, seen: Item, supplied: int)

  datatype State = State(row: Item, calls: map<nat, Call>)

  /** Calls of any number of services on one existing settings row. */
  datatype Step =
    | ReadForTags(call: nat, add: seq<string>, remove: seq<string>, supplied: int)
    | CommitTags(call: nat)
    | PartialWrite(w: Write, expected: int)
    | GiveUp(call: nat)

  predicate Enabled(s: State, step: Step) {
    match step
    case ReadForTags(c, add, remove, _) =>
      c !in s.calls && ExpectedCount(TagsOf(s.row), add, remove) <= MAX_TAGS
    case CommitTags(c) => c in s.calls
    case PartialWrite(w, _) => w.Partial?
    case GiveUp(c) => c in s.calls
  }

  function Next(s: State, step: Step): State
    requires Enabled(s, step)
  {
    match step
    case ReadForTags(c, add, remove, supplied) => s.(calls := s.calls[c := Call(add, remove, s.row, supplied)])
    case CommitTags(c) =>
      var call := s.calls[c];
      State(Attempt(s.row, Write.Tags(call.add, call.remove), call.supplied), s.calls - {c})
    case PartialWrite(w, expected) => s.(row := Attempt(s.row, w, expected))
    case GiveUp(c) => s.(calls := s.calls - {c})
  }

  /** The state after a schedule; a step that is not enabled is skipped. */
  function After(s: State, steps: seq<Step>): State {
    if steps == [] then s
    else
      var before := After(s, steps[..|steps| - 1]);
      if Enabled(before, steps[|steps| - 1]) then Next(before, steps[|steps| - 1]) else before
  }

  /** No interleaving can make such a call exceed the cap: DynamoDB refuses it, it supplies no
      version ahead of the one its read observed, it only removes, or it re-adds stored tags one
      version ahead. */
  predicate Harmless(row: Item, add: seq<string>, remove: seq<string>, supplied: int) {
    || !AcceptableTags(add, remove) || supplied <= VersionOf(row) || add == []
    || (SetOf(add) <= TagsOf(row) && supplied == VersionOf(row) + 1)
  }

  ghost predicate Cautious(s: State, steps: seq<Step>) {
    forall i | 0 <= i < |steps| :: HarmlessStep(After(s, steps[..i]), steps[i])
  }

  ghost predicate HarmlessStep(s: State, step: Step) {
    step.ReadForTags? ==> Harmless(s.row, step.add, step.remove, step.supplied)
  }

  /** What the earlier read still says about the present row: the tags are the same while the
      version is, and one version later they have only grown or only shrunk. */
  ghost predicate CallOk(row: Item, call: Call) {
    && HasVersion(call.seen) && VersionOf(call.seen) <= VersionOf(row)
    && (VersionOf(call.seen) == VersionOf(row) ==> TagsOf(call.seen) == TagsOf(row))
    && (VersionOf(call.seen) + 1 == VersionOf(row) ==>
          TagsOf(call.seen) <= TagsOf(row) || TagsOf(row) <= TagsOf(call.seen))
    && ExpectedCount(TagsOf(call.seen), call.add, call.remove) <= MAX_TAGS
    && Harmless(call.seen, call.add, call.remove, call.supplied)
  }

  ghost predicate CallsOk(row: Item, calls: map<nat, Call>) {
    forall c | c in calls :: CallOk(row, calls[c])
  }

  ghost predicate CapInv(s: State) {
    HasVersion(s.row) && |TagsOf(s.row)| <= MAX_TAGS && CallsOk(s.row, s.calls)
  }

  lemma EffectGrowsOrShrinks(row: Item, w: Write)
    requires Acceptable(w)
    ensures TagsOf(row) <= TagsOf(Effect(row, w)) || TagsOf(Effect(row, w)) <= TagsOf(row)
  {
    EffectOnVersionAndTags(row, w);
    hide Effect, TagsOf, NoRepeats;
  }

  lemma AttemptKeepsCall(row: Item, w: Write, expected: int, call: Call)
    requires HasVersion(row) && CallOk(row, call)
    ensures HasVersion(Attempt(row, w, expected)) && CallOk(Attempt(row, w, expected), call)
  {
    hide Effect, ExpectedCount, TagsOf, Harmless, Acceptable;
    EffectOnVersionAndTags(row, w);
    if Takes(row, w, expected) {
      EffectGrowsOrShrinks(row, w);
    }
  }

  lemma AttemptKeepsCalls(row: Item, w: Write, expected: int, calls: map<nat, Call>)
    requires HasVersion(row) && CallsOk(row, calls)
    ensures HasVersion(Attempt(row, w, expected)) && CallsOk(Attempt(row, w, expected), calls)
  {
    hide Attempt, CallOk;
    assert HasVersion(Attempt(row, w, expected)) by { AttemptKeepsVersion(row, w, expected); }
    forall c | c in calls ensures CallOk(Attempt(row, w, expected), calls[c]) {
      AttemptKeepsCall(row, w, expected, calls[c]);
    }
  }

  lemma AttemptKeepsVersion(row: Item, w: Write, expected: int)
    requires HasVersion(row)
    ensures HasVersion(Attempt(row, w, expected))
    ensures VersionOf(row) <= VersionOf(Attempt(row, w, expected))
    ensures w.Partial? ==> TagsOf(Attempt(row, w, expected)) == TagsOf(row)
  {
    EffectOnVersionAndTags(row, w);
    hide Effect, TagsOf, Takes;
  }

  /** The write of a harmless call whose count passed leaves at most twenty tags. */
  lemma CommitFits(row: Item, call: Call)
    requires HasVersion(row) && |TagsOf(row)| <= MAX_TAGS && CallOk(row, call)
    requires Takes(row, Write.Tags(call.add, call.remove), call.supplied)
    ensures |TagsOf(Effect(row, Write.Tags(call.add, call.remove)))| <= MAX_TAGS
  {
    var seen, now := TagsOf(call.seen), TagsOf(row);
    EffectOnVersionAndTags(row, Write.Tags(call.add, call.remove));
    ExpectedCountIsExact(seen, call.add, call.remove);
    hide Effect, ExpectedCount, TagsOf, NoRepeats;
    var after := now + SetOf(call.add) - SetOf(call.remove);
    if call.supplied <= VersionOf(call.seen) {
      assert now == seen;
    } else if call.add == [] {
      assert SetOf(call.add) == {};
      Smaller(after, now);
    } else {
      assert call.remove == [] && SetOf(call.remove) == {};
      assert seen + SetOf(call.add) - SetOf(call.remove) == seen;
      Smaller(after, if seen <= now then now else seen);
    }
  }

  lemma Smaller(a: set<string>, b: set<string>)
    requires a <= b
    ensures |a| <= |b|
  {
    assert b == a + (b - a);
  }

  lemma ReadKeepsCap(s: State, c: nat, add: seq<string>, remove: seq<string>, supplied: int)
    requires CapInv(s) && Enabled(s, ReadForTags(c, add, remove, supplied)) && Harmless(s.row, add, remove, supplied)
    ensures CapInv(Next(s, ReadForTags(c, add, remove, supplied)))
  {
    hide ExpectedCount, TagsOf, Harmless;
  }

  lemma CommitKeepsCap(s: State, c: nat)
    requires CapInv(s) && c in s.calls
    ensures CapInv(Next(s, CommitTags(c)))
  {
    var call := s.calls[c];
    var w := Write.Tags(call.add, call.remove);
    assert CallOk(s.row, call);
    AttemptKeepsCalls(s.row, w, call.supplied, s.calls);
    if Takes(s.row, w, call.supplied) {
      CommitFits(s.row, call);
    }
    hide Effect, TagsOf, Takes, CallOk;
  }

  lemma PartialKeepsCap(s: State, w: Write, expected: int)
    requires CapInv(s) && w.Partial?
    ensures CapInv(Next(s, PartialWrite(w, expected)))
  {
    hide Attempt, TagsOf, CallOk;
    AttemptKeepsCalls(s.row, w, expected, s.calls);
    AttemptKeepsVersion(s.row, w, expected);
  }

  lemma CapStep(s: State, step: Step)
    requires CapInv(s) && Enabled(s, step) && HarmlessStep(s, step)
    ensures CapInv(Next(s, step))
  {
    match step
    case ReadForTags(c, add, remove, supplied) => ReadKeepsCap(s, c, add, remove, supplied);
    case CommitTags(c) => CommitKeepsCap(s, c);
    case PartialWrite(w, expected) => PartialKeepsCap(s, w, expected);
    case GiveUp(_) =>
      hide CallOk, TagsOf;
  }

  /** Whatever interleaves, the cap holds if every call is harmless. */
  lemma {:induction false} CapHolds(s: State, steps: seq<Step>)
    requires CapInv(s) && Cautious(s, steps)
    ensures CapInv(After(s, steps))
  {
    hide CapInv, HarmlessStep;
    if steps != [] {
      var front, last := steps[..|steps| - 1], steps[|steps| - 1];
      assert forall i | 0 <= i < |front| :: steps[..i] == front[..i];
      CapHolds(s, front);
      assert HarmlessStep(After(s, steps[..|front|]), steps[|front|]);
      if Enabled(After(s, front), last) {
        CapStep(After(s, front), last);
      }
    }
  }

  /** A version any earlier read returned is never ahead, so a caller that passes on what it has
      read makes a harmless call. */
  lemma {:induction false} EarlierVersionIsHarmless(
    s: State, steps: seq<Step>, i: nat, add: seq<string>, remove: seq<string>)
    requires HasVersion(s.row) && i <= |steps|
    ensures Harmless(After(s, steps).row, add, remove, VersionOf(After(s, steps[..i]).row))
    ensures HasVersion(After(s, steps).row)
    ensures VersionOf(After(s, steps[..i]).row) <= VersionOf(After(s, steps).row)
  {
    if i == |steps| {
      assert steps[..i] == steps;
    }
    if steps != [] {
      var front, last := steps[..|steps| - 1], steps[|steps| - 1];
      var before := After(s, front);
      EarlierVersionIsHarmless(s, front, if i < |steps| then i else |front|, add, remove);
      assert i < |steps| ==> front[..i] == steps[..i];
      hide Attempt, AcceptableTags, TagsOf;
      if Enabled(before, last) && last.CommitTags? {
        var call := before.calls[last.call];
        AttemptKeepsVersion(before.row, Write.Tags(call.add, call.remove), call.supplied);
      } else if Enabled(before, last) && last.PartialWrite? {
        AttemptKeepsVersion(before.row, last.w, last.expected);
      }
    }
  }

  // ---------- a harmful call can break the cap ----------

  lemma AfterStep(s: State, steps: seq<Step>, step: Step)
    requires Enabled(After(s, steps), step)
    ensures After(s, steps + [step]) == Next(After(s, steps), step)
  {
  }

  /** The calls other than the first supply the version they observed, add only tags of the last
      namespace, and remove nothing or what the first call adds. */
  ghost predicate Bystanders(row: Item, add: seq<string>, steps: seq<Step>) {
    forall i | 1 <= i < |steps| :: Bystander(After(State(row, map[]), steps[..i]), add, steps[i])
  }

  ghost predicate Bystander(s: State, add: seq<string>, step: Step) {
    step.ReadForTags? ==>
      && step.supplied == VersionOf(s.row) && OwnedBy(NAMESPACES[3], step.add)
      && (step.remove == [] || step.remove == add)
  }

  /** One more enabled step after a schedule with bystanders. */
  lemma Extended(row: Item, add: seq<string>, steps: seq<Step>, step: Step) returns (longer: seq<Step>)
    requires steps != [] && Bystanders(row, add, steps)
    requires var s := After(State(row, map[]), steps); Enabled(s, step) && Bystander(s, add, step)
    ensures longer == steps + [step] && longer[0] == steps[0] && Bystanders(row, add, longer)
    ensures After(State(row, map[]), longer) == Next(After(State(row, map[]), steps), step)
  {
    longer := steps + [step];
    AfterStep(State(row, map[]), steps, step);
    hide Bystander, After;
    forall i | 1 <= i < |longer| ensures Bystander(After(State(row, map[]), longer[..i]), add, longer[i]) {
      if i < |steps| {
        assert longer[..i] == steps[..i];
        assert Bystander(After(State(row, map[]), steps[..i]), add, steps[i]);
      } else {
        assert longer[..i] == steps;
      }
    }
  }

  /** `n` accepted partial updates in a row move the version and nothing a tag call reads. */
  lemma {:induction false} PartialsAdvance(row: Item, add: seq<string>, steps: seq<Step>, w: Write, n: nat)
    returns (longer: seq<Step>)
    requires w.Partial? && steps != [] && Bystanders(row, add, steps) && HasVersion(After(State(row, map[]), steps).row)
    ensures longer != [] && longer[0] == steps[0] && Bystanders(row, add, longer)
    ensures var before, after := After(State(row, map[]), steps), After(State(row, map[]), longer);
      && HasVersion(after.row) && VersionOf(after.row) == VersionOf(before.row) + n
      && TagsOf(after.row) == TagsOf(before.row) && after.calls == before.calls
  {
    hide Bystanders, TagsOf, Effect;
    if n == 0 {
      longer := steps;
    } else {
      var most := PartialsAdvance(row, add, steps, w, n - 1);
      var mid := After(State(row, map[]), most);
      EffectOnVersionAndTags(mid.row, w);
      longer := Extended(row, add, most, PartialWrite(w, VersionOf(mid.row)));
    }
  }

  /** One undisturbed call of a bystander: read, count, write. */
  lemma ObservedCall(
    row: Item, add: seq<string>, steps: seq<Step>, c: nat, more: seq<string>, less: seq<string>)
    returns (longer: seq<Step>)
    requires steps != [] && Bystanders(row, add, steps)
    requires AcceptableTags(more, less) && OwnedBy(NAMESPACES[3], more) && (less == [] || less == add)
    requires var s := After(State(row, map[]), steps);
      HasVersion(s.row) && c !in s.calls && ExpectedCount(TagsOf(s.row), more, less) <= MAX_TAGS
    ensures longer != [] && longer[0] == steps[0] && Bystanders(row, add, longer)
    ensures var before, after := After(State(row, map[]), steps), After(State(row, map[]), longer);
      && HasVersion(after.row) && VersionOf(after.row) == VersionOf(before.row) + 1
      && TagsOf(after.row) == TagsOf(before.row) + SetOf(more) - SetOf(less) && after.calls == before.calls
  {
    hide Bystanders, TagsOf, Effect, ExpectedCount, AcceptableTags, OwnedBy, NAMESPACES;
    var before := After(State(row, map[]), steps);
    EffectOnVersionAndTags(before.row, Write.Tags(more, less));
    var read := Extended(row, add, steps, ReadForTags(c, more, less, VersionOf(before.row)));
    longer := Extended(row, add, read, CommitTags(c));
    assert After(State(row, map[]), longer).calls == before.calls;
  }

  function TagNo(i: nat): string {
    "system." + Instants.Pad(i, 2)
  }

  lemma {:induction false} PadIsDigits(n: nat, w: nat)
    ensures forall c | c in Instants.Pad(n, w) :: '0' <= c <= '9'
  {
    if w > 0 {
      PadIsDigits(n / 10, w - 1);
    }
  }

  lemma TagNoIsOwned(i: nat)
    ensures InNamespace(TagNo(i), NAMESPACES[3])
  {
    var digits := Instants.Pad(i, 2);
    PadIsDigits(i, 2);
    hide Instants.Pad;
    assert |TagNo(i)| == 9;
    forall k | 0 <= k < 9 ensures IsTagChar(TagNo(i)[k]) {
      if k >= 7 {
        assert TagNo(i)[k] == digits[k - 7] && digits[k - 7] in digits;
      }
    }
  }

  function Numbered(n: nat): set<string> {
    if n == 0 then {} else Numbered(n - 1) + {TagNo(n - 1)}
  }

  lemma {:induction false} NumberedMembers(n: nat, tag: string)
    requires tag in Numbered(n)
    ensures exists i: nat :: i < n && tag == TagNo(i)
  {
    if tag != TagNo(n - 1) {
      NumberedMembers(n - 1, tag);
    }
  }

  lemma {:induction false} NumberedSize(n: nat)
    requires n <= 100
    ensures |Numbered(n)| == n
  {
    if n > 0 {
      NumberedSize(n - 1);
      hide TagNo;
      if TagNo(n - 1) in Numbered(n - 1) {
        NumberedMembers(n - 1, TagNo(n - 1));
        var i: nat :| i < n - 1 && TagNo(n - 1) == TagNo(i);
        TagNosDiffer(i, n - 1);
      }
    }
  }

  lemma TagNosDiffer(i: nat, j: nat)
    requires i < j < 100
    ensures TagNo(i) != TagNo(j)
  {
    assert Instants.Pow10(2) == 100;
    Instants.PadOrder(i, j, 2);
    PrefixCancels("system.", Instants.Pad(i, 2), Instants.Pad(j, 2));
  }

  /** Enough tags of the last namespace are always left over. */
  lemma {:induction false} FreshTags(n: nat, avoid: set<string>) returns (tags: seq<string>)
    requires n <= MAX_TAGS && |avoid| <= MAX_TAGS
    ensures |tags| == n && NoRepeats(tags) && Distinct(tags) && SetOf(tags) !! avoid && OwnedBy(NAMESPACES[3], tags)
  {
    hide TagNo, Numbered, InNamespace, NAMESPACES;
    if n == 0 {
      tags := [];
      assert SetOf(tags) == {};
    } else {
      var front := FreshTags(n - 1, avoid);
      NumberedSize(100);
      DistinctSize(front);
      LeftOver(Numbered(100), avoid + SetOf(front));
      var tag :| tag in Numbered(100) && tag !in avoid + SetOf(front);
      NumberedMembers(100, tag);
      var i: nat :| i < 100 && tag == TagNo(i);
      TagNoIsOwned(i);
      tags := front + [tag];
      SetOfAppend(front, tag);
    }
  }

  lemma LeftOver(a: set<string>, b: set<string>)
    requires |b| < |a|
    ensures exists x :: x in a && x !in b
  {
    if a <= b {
      Smaller(a, b);
    }
  }

  /** What is needed to fill a tag set up to the cap. */
  lemma FillUp(tags: set<string>, avoid: set<string>) returns (fill: seq<string>)
    requires |tags| < MAX_TAGS && tags <= avoid && |avoid| <= MAX_TAGS
    ensures fill != [] && AcceptableTags(fill, []) && OwnedBy(NAMESPACES[3], fill) && SetOf(fill) !! avoid
    ensures |tags + SetOf(fill)| == MAX_TAGS && ExpectedCount(tags, fill, []) == MAX_TAGS
  {
    hide OwnedBy, NAMESPACES, Distinct;
    fill := FreshTags(MAX_TAGS - |tags|, avoid);
    assert SetOf<string>([]) == {} && NoRepeats([]);
    ExpectedCountIsExact(tags, fill, []);
    assert tags + SetOf(fill) - SetOf([]) == tags + SetOf(fill);
    assert tags !! SetOf(fill);
  }

  lemma {:induction false} SetNonEmpty(tags: seq<string>)
    requires tags != []
    ensures SetOf(tags) != {}
  {
    assert tags[0] in SetOf(tags);
  }

  /** The first call commits last, on a row with twenty tags some of which it does not hold. */
  lemma LastCommit(row: Item, add: seq<string>, remove: seq<string>, supplied: int, steps: seq<Step>, w: Write)
    returns (longer: seq<Step>)
    requires steps != [] && Bystanders(row, add, steps) && w.Partial? && AcceptableTags(add, remove) && add != []
    requires var s := After(State(row, map[]), steps);
      && HasVersion(s.row) && VersionOf(s.row) <= supplied
      && s.calls == map[0 := Call(add, remove, row, supplied)]
      && |TagsOf(s.row)| == MAX_TAGS && !(SetOf(add) <= TagsOf(s.row))
    ensures longer != [] && longer[0] == steps[0] && Bystanders(row, add, longer)
    ensures |TagsOf(After(State(row, map[]), longer).row)| > MAX_TAGS
  {
    hide Bystanders, TagsOf, Effect, NoRepeats;
    var s := After(State(row, map[]), steps);
    var ready := PartialsAdvance(row, add, steps, w, supplied - VersionOf(s.row));
    var t := After(State(row, map[]), ready);
    EffectOnVersionAndTags(t.row, Write.Tags(add, remove));
    longer := Extended(row, add, ready, CommitTags(0));
    var tag :| tag in SetOf(add) && tag !in TagsOf(s.row);
    assert SetOf(remove) == {};
    Smaller(TagsOf(s.row) + {tag}, TagsOf(t.row) + SetOf(add) - SetOf(remove));
  }

  /** Every call that is not harmless can end above the cap: from any row of at most twenty tags
      and any such call whose count passes, a schedule of bystanders leads there. */
  lemma HarmfulBreaksCap(row: Item, add: seq<string>, remove: seq<string>, supplied: int, w: Write)
    returns (steps: seq<Step>)
    requires HasVersion(row) && |TagsOf(row)| <= MAX_TAGS && w.Partial?
    requires ExpectedCount(TagsOf(row), add, remove) <= MAX_TAGS && !Harmless(row, add, remove, supplied)
    ensures steps != [] && steps[0] == ReadForTags(0, add, remove, supplied) && Bystanders(row, add, steps)
    ensures |TagsOf(After(State(row, map[]), steps).row)| > MAX_TAGS
  {
    var s, s0 := State(row, map[]), ReadForTags(0, add, remove, supplied);
    assert After(s, []) == s;
    AfterStep(s, [], s0);
    assert [] + [s0] == [s0];
    ExpectedCountIsExact(TagsOf(row), add, remove);
    assert SetOf(remove) == {} && TagsOf(row) + SetOf(add) - SetOf(remove) == TagsOf(row) + SetOf(add);
    assert Bystanders(row, add, [s0]);
    hide Bystanders, TagsOf, ExpectedCount, After, SetOf;
    if SetOf(add) <= TagsOf(row) {
      steps := FillInstead(row, add, remove, supplied);
    } else {
      steps := FillBeside(row, add, remove, supplied);
    }
    steps := LastCommit(row, add, remove, supplied, steps, w);
  }

  /** Stored tags about to be re-added are first removed, and their places filled. */
  lemma FillInstead(row: Item, add: seq<string>, remove: seq<string>, supplied: int) returns (steps: seq<Step>)
    requires HasVersion(row) && |TagsOf(row)| <= MAX_TAGS && AcceptableTags(add, remove) && add != []
    requires SetOf(add) <= TagsOf(row)
    requires var s0 := ReadForTags(0, add, remove, supplied);
      && Bystanders(row, add, [s0])
      && After(State(row, map[]), [s0]) == State(row, map[0 := Call(add, remove, row, supplied)])
    ensures steps != [] && steps[0] == ReadForTags(0, add, remove, supplied) && Bystanders(row, add, steps)
    ensures var s := After(State(row, map[]), steps);
      && HasVersion(s.row) && VersionOf(s.row) == VersionOf(row) + 2
      && s.calls == map[0 := Call(add, remove, row, supplied)]
      && |TagsOf(s.row)| == MAX_TAGS && !(SetOf(add) <= TagsOf(s.row))
  {
    SetNonEmpty(add);
    hide Bystanders, TagsOf, ExpectedCount, After, NoRepeats, SetOf, OwnedBy, NAMESPACES;
    var kept := TagsOf(row) - SetOf(add);
    steps := RemoveFirst(row, add, [ReadForTags(0, add, remove, supplied)]);
    Shrinks(TagsOf(row), SetOf(add));
    var fill := FillUp(kept, TagsOf(row));
    steps := ObservedCall(row, add, steps, 2, fill, []);
    FilledUp(kept, fill);
    StillMissing(kept, fill, add);
  }

  /** The free places are filled with other tags than those about to be added. */
  lemma FillBeside(row: Item, add: seq<string>, remove: seq<string>, supplied: int) returns (steps: seq<Step>)
    requires HasVersion(row) && |TagsOf(row) + SetOf(add)| <= MAX_TAGS && !(SetOf(add) <= TagsOf(row))
    requires var s0 := ReadForTags(0, add, remove, supplied);
      && Bystanders(row, add, [s0])
      && After(State(row, map[]), [s0]) == State(row, map[0 := Call(add, remove, row, supplied)])
    ensures steps != [] && steps[0] == ReadForTags(0, add, remove, supplied) && Bystanders(row, add, steps)
    ensures var s := After(State(row, map[]), steps);
      && HasVersion(s.row) && VersionOf(s.row) == VersionOf(row) + 1
      && s.calls == map[0 := Call(add, remove, row, supplied)]
      && |TagsOf(s.row)| == MAX_TAGS && !(SetOf(add) <= TagsOf(s.row))
  {
    hide Bystanders, TagsOf, ExpectedCount, After, NoRepeats, SetOf, OwnedBy, NAMESPACES;
    var all := TagsOf(row) + SetOf(add);
    var tag :| tag in SetOf(add) && tag !in TagsOf(row);
    assert tag in SetOf(add) - TagsOf(row);
    Shrinks(all, SetOf(add) - TagsOf(row));
    assert all - (SetOf(add) - TagsOf(row)) == TagsOf(row);
    var fill := FillUp(TagsOf(row), all);
    steps := ObservedCall(row, add, [ReadForTags(0, add, remove, supplied)], 1, fill, []);
    FilledUp(TagsOf(row), fill);
    StillMissing(TagsOf(row), fill, add);
  }

  lemma Shrinks(a: set<string>, b: set<string>)
    requires b <= a && b != {}
    ensures |a - b| < |a|
  {
    assert a == (a - b) + b;
  }

  lemma FilledUp(tags: set<string>, fill: seq<string>)
    ensures tags + SetOf(fill) - SetOf([]) == tags + SetOf(fill)
  {
    assert SetOf<string>([]) == {};
  }

  lemma StillMissing(tags: set<string>, fill: seq<string>, add: seq<string>)
    requires !(SetOf(add) <= tags) && SetOf(fill) !! SetOf(add)
    ensures !(SetOf(add) <= tags + SetOf(fill))
  {
    hide SetOf;
    var tag :| tag in SetOf(add) && tag !in tags;
    assert tag !in SetOf(fill);
  }

  /** A bystander removes what the first call is going to add. */
  lemma RemoveFirst(row: Item, add: seq<string>, steps: seq<Step>) returns (longer: seq<Step>)
    requires steps != [] && Bystanders(row, add, steps) && add != [] && NoRepeats(add)
    requires var s := After(State(row, map[]), steps);
      HasVersion(s.row) && 1 !in s.calls && |TagsOf(s.row)| <= MAX_TAGS
    ensures longer != [] && longer[0] == steps[0] && Bystanders(row, add, longer)
    ensures var before, after := After(State(row, map[]), steps), After(State(row, map[]), longer);
      && HasVersion(after.row) && VersionOf(after.row) == VersionOf(before.row) + 1
      && TagsOf(after.row) == TagsOf(before.row) - SetOf(add) && after.calls == before.calls
  {
    var before := After(State(row, map[]), steps);
    assert SetOf<string>([]) == {} && NoRepeats([]) && OwnedBy(NAMESPACES[3], []);
    ExpectedCountIsExact(TagsOf(before.row), [], add);
    hide Bystanders, TagsOf, ExpectedCount, SetOf, OwnedBy, NAMESPACES, After;
    Smaller(TagsOf(before.row) + SetOf([]) - SetOf(add), TagsOf(before.row));
    longer := ObservedCall(row, add, steps, 1, [], add);
    assert TagsOf(before.row) + SetOf([]) - SetOf(add) == TagsOf(before.row) - SetOf(add);
  }

  /** The calls other than the first supply the version they observed. */
  ghost predicate OthersObserve(row: Item, steps: seq<Step>) {
    forall i | 1 <= i < |steps| :: Observes(After(State(row, map[]), steps[..i]), steps[i])
  }

  predicate Observes(s: State, step: Step) {
    step.ReadForTags? ==> step.supplied == VersionOf(s.row)
  }

  lemma BystandersObserve(row: Item, add: seq<string>, steps: seq<Step>)
    requires Bystanders(row, add, steps)
    ensures OthersObserve(row, steps)
  {
    hide After, OwnedBy;
    forall i | 1 <= i < |steps| ensures Observes(After(State(row, map[]), steps[..i]), steps[i]) {
      assert Bystander(After(State(row, map[]), steps[..i]), add, steps[i]);
    }
  }

  /** Exactly the harmless calls can never lead above the cap while all others pass on the version
      they observed. */
  lemma CapHoldsExactly(row: Item, add: seq<string>, remove: seq<string>, supplied: int)
    requires HasVersion(row) && |TagsOf(row)| <= MAX_TAGS && ExpectedCount(TagsOf(row), add, remove) <= MAX_TAGS
    ensures Harmless(row, add, remove, supplied) <==>
              forall steps | steps != [] && steps[0] == ReadForTags(0, add, remove, supplied)
                             && OthersObserve(row, steps) ::
                |TagsOf(After(State(row, map[]), steps).row)| <= MAX_TAGS
  {
    hide TagsOf, ExpectedCount, After;
    if Harmless(row, add, remove, supplied) {
      forall steps | steps != [] && steps[0] == ReadForTags(0, add, remove, supplied) && OthersObserve(row, steps)
        ensures |TagsOf(After(State(row, map[]), steps).row)| <= MAX_TAGS
      {
        ObserversAreCautious(row, steps);
        CapHolds(State(row, map[]), steps);
      }
    } else {
      var none := UpdateSettingsRequest(None, None, None, None, None, None, None, None, None);
      var steps := HarmfulBreaksCap(row, add, remove, supplied, Partial(none, "", ""));
      BystandersObserve(row, add, steps);
    }
  }

  lemma ObserversAreCautious(row: Item, steps: seq<Step>)
    requires steps != [] && OthersObserve(row, steps)
    requires steps[0].ReadForTags? && Harmless(row, steps[0].add, steps[0].remove, steps[0].supplied)
    ensures Cautious(State(row, map[]), steps)
  {
    var s := State(row, map[]);
    assert After(s, steps[..0]) == s;
    hide After;
    forall i | 0 <= i < |steps| ensures HarmlessStep(After(s, steps[..i]), steps[i]) {
      if i > 0 {
        assert Observes(After(s, steps[..i]), steps[i]);
      }
    }
  }

  // ---------- namespaces under concurrency ----------

  function Restricted(tags: set<string>, ns: string): set<string> {
    set tag | tag in tags && ns <= tag
  }

  /** Tag attempts come validated for the namespace of some service. */
  ghost predicate Validated(w: Write) {
    w.Tags? ==> exists i :: 0 <= i < |NAMESPACES| && ValidatedFor(w, i)
  }

  predicate ValidatedFor(w: Write, i: nat)
    requires i < |NAMESPACES| && w.Tags?
  {
    OwnedBy(NAMESPACES[i], w.add) && OwnedBy(NAMESPACES[i], w.remove)
  }

  /** The accepted requests of one namespace, in order. */
  function OnlyOf(writes: seq<Attempted>, i: nat): seq<Attempted>
    requires i < |NAMESPACES|
  {
    if writes == [] then []
    else
      var front, last := OnlyOf(writes[..|writes| - 1], i), writes[|writes| - 1];
      if last.w.Tags? && ValidatedFor(last.w, i) then front + [last] else front
  }

  function FoldedTags(tags: set<string>, writes: seq<Attempted>): set<string> {
    if writes == [] then tags
    else
      var front, last := FoldedTags(tags, writes[..|writes| - 1]), writes[|writes| - 1].w;
      if last.Tags? then front + SetOf(last.add) - SetOf(last.remove) else front
  }

  /** A mutation validated for one namespace is seen there in full and in no other. */
  lemma MutationStaysHome(tags: set<string>, w: Write, i: nat, owner: nat)
    requires w.Tags? && i < |NAMESPACES| && owner < |NAMESPACES| && ValidatedFor(w, owner)
    ensures Restricted(tags + SetOf(w.add) - SetOf(w.remove), NAMESPACES[i]) ==
              if i == owner then Restricted(tags, NAMESPACES[i]) + SetOf(w.add) - SetOf(w.remove)
              else Restricted(tags, NAMESPACES[i])
    ensures Acceptable(w) && ValidatedFor(w, i) ==> i == owner
  {
    hide NAMESPACES, InNamespace, NoRepeats;
    forall tag | tag in w.add || tag in w.remove ensures NAMESPACES[i] <= tag <==> i == owner {
      TagHome(tag, i, owner);
    }
    if i == owner {
      ChangeAtHome(tags, SetOf(w.add), SetOf(w.remove), NAMESPACES[i]);
    } else {
      ChangeAway(tags, SetOf(w.add), SetOf(w.remove), NAMESPACES[i]);
    }
    if Acceptable(w) && ValidatedFor(w, i) {
      var tag := if w.add != [] then w.add[0] else w.remove[0];
      assert tag in w.add || tag in w.remove;
      TagHome(tag, i, i);
    }
  }

  lemma ChangeAtHome(tags: set<string>, add: set<string>, remove: set<string>, ns: string)
    requires forall tag | tag in add || tag in remove :: ns <= tag
    ensures Restricted(tags + add - remove, ns) == Restricted(tags, ns) + add - remove
  {
  }

  lemma ChangeAway(tags: set<string>, add: set<string>, remove: set<string>, ns: string)
    requires forall tag | tag in add || tag in remove :: !(ns <= tag)
    ensures Restricted(tags + add - remove, ns) == Restricted(tags, ns)
  {
  }

  lemma TagHome(tag: string, i: nat, owner: nat)
    requires i < |NAMESPACES| && owner < |NAMESPACES| && InNamespace(tag, NAMESPACES[owner])
    ensures NAMESPACES[i] <= tag <==> i == owner
  {
    if NAMESPACES[i] <= tag {
      NamespacesDisjoint(tag, i, owner);
    }
  }

  /** Over any interleaving of writers, the stored tags of one namespace are what the accepted
      requests of that namespace alone produce. */
  lemma {:induction false} NamespacesDoNotInterfere(row: Item, attempts: seq<Attempted>, i: nat)
    requires i < |NAMESPACES| && forall a | a in attempts :: Validated(a.w)
    ensures Restricted(TagsOf(RowAfter(row, attempts)), NAMESPACES[i])
         == FoldedTags(Restricted(TagsOf(row), NAMESPACES[i]), OnlyOf(AcceptedOf(row, attempts), i))
  {
    if attempts != [] {
      hide Effect, NAMESPACES, TagsOf, Restricted;
      var front, last := attempts[..|attempts| - 1], attempts[|attempts| - 1];
      assert attempts == front + [last];
      NamespacesDoNotInterfere(row, front, i);
      var before := RowAfter(row, front);
      if Takes(before, last.w, last.expected) {
        EffectOnVersionAndTags(before, last.w);
        var accepted := AcceptedOf(row, front);
        assert AcceptedOf(row, attempts) == accepted + [last];
        assert (accepted + [last])[..|accepted|] == accepted;
        if last.w.Tags? {
          assert last in attempts;
          var owner :| 0 <= owner < |NAMESPACES| && ValidatedFor(last.w, owner);
          MutationStaysHome(TagsOf(before), last.w, i, owner);
          var only := OnlyOf(accepted, i);
          assert (only + [last])[..|only|] == only;
        }
      }
    }
  }

  ghost predicate WellPlaced(tag: string) {
    MatchesTagPattern(tag) && exists i :: 0 <= i < |NAMESPACES| && NAMESPACES[i] <= tag
  }

  /** Every stored tag fits the pattern and lies in one of the namespaces. */
  lemma {:induction false} StoredTagsWellPlaced(row: Item, attempts: seq<Attempted>)
    requires forall a | a in attempts :: Validated(a.w)
    requires forall tag | tag in TagsOf(row) :: WellPlaced(tag)
    ensures forall tag | tag in TagsOf(RowAfter(row, attempts)) :: WellPlaced(tag)
  {
    if attempts != [] {
      hide Effect, NAMESPACES, TagsOf, MatchesTagPattern;
      var front, last := attempts[..|attempts| - 1], attempts[|attempts| - 1];
      assert attempts == front + [last];
      StoredTagsWellPlaced(row, front);
      var before := RowAfter(row, front);
      if Takes(before, last.w, last.expected) {
        EffectOnVersionAndTags(before, last.w);
        if last.w.Tags? {
          assert last in attempts;
          var owner :| 0 <= owner < |NAMESPACES| && ValidatedFor(last.w, owner);
          forall tag | tag in SetOf(last.w.add) ensures WellPlaced(tag) {
            assert InNamespace(tag, NAMESPACES[owner]);
          }
        }
      }
    }
  }

  // ---------- the service call ----------

  /** The write after a passed count leaves at most twenty tags, if nothing came between. */
  lemma CountedWriteFits(row: Item, add: seq<string>, remove: seq<string>, supplied: int)
    requires Takes(row, Write.Tags(add, remove), supplied)
    requires ExpectedCount(TagsOf(row), add, remove) <= MAX_TAGS
    ensures |TagsOf(Effect(row, Write.Tags(add, remove)))| <= MAX_TAGS
  {
    EffectOnVersionAndTags(row, Write.Tags(add, remove));
    ExpectedCountIsExact(TagsOf(row), add, remove);
  }

  predicate Capped(t: Table, k: Key) {
    k in t ==> |TagsOf(t[k])| <= MAX_TAGS
  }

  // ---------- statuses ----------

  const STATUSES := {"active", "suspended", "closed"}

  /** Letter case does not matter to validation, and is stored as supplied. */
  predicate ValidStatus(status: string) {
    Lower(status) in STATUSES
  }

  lemma ValidStatusMeans(status: string)
    ensures ValidStatus(status) <==>
              SameButCase(status, "active") || SameButCase(status, "suspended") || SameButCase(status, "closed")
  {
    LowerOfLower();
    LowerAgrees(status, "active");
    LowerAgrees(status, "suspended");
    LowerAgrees(status, "closed");
    hide Lower, SameButCase;
  }

  lemma LowerOfLower()
    ensures Lower("active") == "active" && Lower("suspended") == "suspended" && Lower("closed") == "closed"
  {
  }

  predicate StatusOk(t: Table, k: Key) {
    k in t ==> ValidStatus(StrAttr(t[k], "status"))
  }

  lemma EffectOnStatus(row: Item, w: Write)
    ensures StrAttr(Effect(row, w), "status") ==
              if w.Partial? && w.req.status.Some? then w.req.status.value else StrAttr(row, "status")
  {
    if w.Partial? {
      SettingsColumnsDistinct();
      PatchOfAt(SETTINGS_COLUMNS, SettingsValues(w.req, w.changedAt, w.updatedAt), 4);
      hide PatchOf;
      assert Attribute(SettingsPatch(w.req, w.changedAt, w.updatedAt), "status") == Str(w.req.status);
      hide SettingsPatch;
    }
  }

  class SettingsService {
    const repo: SettingsRepo

    constructor (repo: SettingsRepo)
      ensures this.repo == repo
    {
      this.repo := repo;
    }

    /** One guarded partial update; the version defaults to 0. After an accepted write a failed
        re-read still reports an error. */
    method UpdateSettings(id: string, req: UpdateSettingsRequest, changedAt: string, updatedAt: string)
      returns (r: Result<Item>)
      modifies repo.client`table
      ensures req.status.Some? && !ValidStatus(req.status.value) ==>
                r == Err(InvalidInput) && repo.client.table == old(repo.client.table)
      ensures var t, t', k := old(repo.client.table), repo.client.table, SettingsKey(id);
        var w := Partial(req, changedAt, updatedAt);
        var supplied := if req.version.Some? then req.version.value else 0;
        && (t' == t || (k in t && Takes(t[k], w, supplied) && t' == t[k := Effect(t[k], w)]))
        && (r.Ok? ==> k in t && Takes(t[k], w, supplied) && t' == t[k := Effect(t[k], w)] && r.value == t'[k])
        && (t' != t ==> SettingsOverwritten(t[k], t'[k], req, changedAt, updatedAt))
        && (r.Ok? ==> SettingsOverwritten(t[k], r.value, req, changedAt, updatedAt))
        && (r == Err(VersionConflict) ==> k in t && !Takes(t[k], w, supplied) && t' == t)
        && (repo.client.healthy && (req.status.Some? ==> ValidStatus(req.status.value)) ==>
              (r.Ok? <==> k in t && Takes(t[k], w, supplied)))
      ensures StatusOk(old(repo.client.table), SettingsKey(id)) ==> StatusOk(repo.client.table, SettingsKey(id))
    {
      hide Effect, Takes, ValidStatus, SettingsOverwritten;
      if req.status.Some? {
        if !ValidStatus(req.status.value) {
          return Err(InvalidInput);
        }
      }
      var version := 0;
      if req.version.Some? {
        version := req.version.value;
      }
      ghost var t := repo.client.table;
      var s := repo.UpdateSettingsPartial(id, req, version, changedAt, updatedAt);
      if s.Failed? {
        return Err(s.error);
      }
      EffectOnStatus(t[SettingsKey(id)], Partial(req, changedAt, updatedAt));
      r := repo.GetSettings(id);
    }

    /** Reads, initialises missing settings, checks the cap, and writes with the version the
        request supplies (0 if none). */
    method UpdateSettingsTags(
      id: string, service: string, add: seq<string>, remove: seq<string>, version: Option<int>)
      returns (r: Result<Item>)
      modifies repo.client`table
      ensures !ValidFor(service, add, remove) ==>
                r == Err(ForbiddenNamespace) && repo.client.table == old(repo.client.table)
      ensures var t, t', k := old(repo.client.table), repo.client.table, SettingsKey(id);
        var base, supplied := BaseRow(t, k), if version.Some? then version.value else 0;
        && (t' == t || (k !in t && t' == t[k := base])
            || (&& Takes(base, Write.Tags(add, remove), supplied)
                && ExpectedCount(TagsOf(base), add, remove) <= MAX_TAGS
                && t' == t[k := Effect(base, Write.Tags(add, remove))]))
        && (r.Ok? ==> r == TagsAnswer(base, add, remove, supplied) && t' == t[k := r.value])
        && (repo.client.healthy && ValidFor(service, add, remove) ==>
              && r == TagsAnswer(base, add, remove, supplied)
              && t' == t[k := if r.Ok? then r.value else base])
      ensures repo.client.healthy && ValidFor(service, add, remove) && PlainRequest(add, remove) ==>
                AnswersByCount(BaseRow(old(repo.client.table), SettingsKey(id)), add, remove,
                               if version.Some? then version.value else 0, r)
      ensures Capped(old(repo.client.table), SettingsKey(id)) ==> Capped(repo.client.table, SettingsKey(id))
    {
      hide AnswersByCount, PlainRequest, TagsAnswer, Effect, ExpectedCount, TagsOf, OwnedBy, AcceptableTags,
           NamespaceOf, SettingsRecord, DEFAULTS;
      var prefix := NamespaceOf(service);
      if prefix.None? {
        return Err(ForbiddenNamespace);
      }
      var valid := ValidateTagNamespace(prefix.value, add, remove);
      if !valid {
        return Err(ForbiddenNamespace);
      }
      var current := repo.GetSettings(id);
      DefaultsAreFresh();
      if current == Err(NotFound) {
        var created := repo.UpdateSettings(id, DEFAULTS);
        if !created {
          return Err(Internal);
        }
        current := Ok(DefaultSettings());
      }
      if current.Err? {
        return Err(Internal);
      }
      r := this.MutateCounted(id, current.value, add, remove, if version.Some? then version.value else 0);
    }

    /** The part after the read: the count over what was read, the write, and the re-read. */
    method MutateCounted(id: string, current: Item, add: seq<string>, remove: seq<string>, supplied: int)
      returns (r: Result<Item>)
      requires SettingsKey(id) in repo.client.table && repo.client.table[SettingsKey(id)] == current
      modifies repo.client`table
      ensures var t, t', k := old(repo.client.table), repo.client.table, SettingsKey(id);
        && (t' == t
            || (&& Takes(current, Write.Tags(add, remove), supplied)
                && ExpectedCount(TagsOf(current), add, remove) <= MAX_TAGS
                && t' == t[k := Effect(current, Write.Tags(add, remove))]
                && |TagsOf(t'[k])| <= MAX_TAGS))
        && (r.Ok? ==> r == TagsAnswer(current, add, remove, supplied) && t' == t[k := r.value])
        && (repo.client.healthy ==>
              && r == TagsAnswer(current, add, remove, supplied)
              && t' == t[k := if r.Ok? then r.value else current])
      ensures repo.client.healthy && PlainRequest(add, remove) ==> AnswersByCount(current, add, remove, supplied, r)
    {
      hide Effect, ExpectedCount, TagsOf, AcceptableTags, AnswersByCount, PlainRequest;
      TagsAnswered(current, add, remove, supplied);
      var tags := Listing(TagsOf(current));
      var count := ExpectedTagCount(tags, add, remove);
      if count > MAX_TAGS {
        return Err(ForbiddenNamespace);
      }
      var s := repo.MutateSettingsTags(id, add, remove, supplied);
      if Takes(current, Write.Tags(add, remove), supplied) {
        CountedWriteFits(current, add, remove, supplied);
      }
      if s.Failed? {
        return Err(s.error);
      }
      r := repo.GetSettings(id);
    }
  }

  predicate ValidFor(service: string, add: seq<string>, remove: seq<string>) {
    var ns := NamespaceOf(service);
    ns.Some? && OwnedBy(ns.value, add) && OwnedBy(ns.value, remove)
  }

  /** One to 32 lower-case letters, digits, dots and underscores. */
  ghost predicate WellFormedTag(tag: string) {
    1 <= |tag| <= 32 && forall c | c in tag :: 'a' <= c <= 'z' || '0' <= c <= '9' || c == '.' || c == '_'
  }

  /** Which service may write which tag. */
  ghost predicate MayWrite(service: string, tag: string) {
    || (service == "loyalty-api" && "loyalty." <= tag)
    || (service == "marketing-api" && "marketing." <= tag)
    || (service == "promotions-api" && "marketing." <= tag)
    || (service == "customer-servicing-api" && "support." <= tag)
    || (service == "accounts-api" && "system." <= tag)
  }

  /** A request is valid exactly if its service has a namespace and all of its tags are well formed
      and lie there. */
  lemma ServicesOwnTags(service: string, add: seq<string>, remove: seq<string>)
    ensures ValidFor(service, add, remove) <==>
              && service in {"loyalty-api", "marketing-api", "promotions-api", "customer-servicing-api", "accounts-api"}
              && forall tag | tag in add || tag in remove :: WellFormedTag(tag) && MayWrite(service, tag)
  {
    forall tag ensures MatchesTagPattern(tag) <==> WellFormedTag(tag) {
      PatternMeans(tag);
    }
    OwnNamespace(service);
    hide MatchesTagPattern, WellFormedTag, NamespaceOf, MayWrite, NAMESPACES;
    if NamespaceOf(service).Some? {
      var ns := NamespaceOf(service).value;
      assert forall tag :: InNamespace(tag, ns) <==> WellFormedTag(tag) && MayWrite(service, tag);
    }
  }

  lemma PatternMeans(tag: string)
    ensures MatchesTagPattern(tag) <==> WellFormedTag(tag)
  {
    if WellFormedTag(tag) {
      forall i | 0 <= i < |tag| ensures IsTagChar(tag[i]) {
        assert tag[i] in tag;
      }
    }
  }

  lemma OwnNamespace(service: string)
    ensures NamespaceOf(service).Some? <==>
              service in {"loyalty-api", "marketing-api", "promotions-api", "customer-servicing-api", "accounts-api"}
    ensures NamespaceOf(service).Some? ==> forall tag :: NamespaceOf(service).value <= tag <==> MayWrite(service, tag)
  {
  }

  /** Only adds or only removes, and names no tag twice. */
  ghost predicate PlainRequest(add: seq<string>, remove: seq<string>) {
    (add == []) != (remove == []) && Distinct(add) && Distinct(remove)
  }

  /** What an undisturbed plain request comes to: more than twenty tags are refused, and up to
      twenty are stored on the version supplied. */
  ghost predicate AnswersByCount(
    base: Item, add: seq<string>, remove: seq<string>, supplied: int, r: Result<Item>)
  {
    var tags := TagsOf(base) + SetOf(add) - SetOf(remove);
    var right := HasVersion(base) && VersionOf(base) == supplied;
    && (|tags| > 20 ==> r == Err(ForbiddenNamespace))
    && (|tags| <= 20 && !right ==> r == Err(VersionConflict))
    && (|tags| <= 20 && right ==>
          r.Ok? && TagsOf(r.value) == tags && HasVersion(r.value) && VersionOf(r.value) == supplied + 1)
  }

  lemma PlainIsAcceptable(add: seq<string>, remove: seq<string>)
    requires PlainRequest(add, remove)
    ensures AcceptableTags(add, remove) && (add != [] || remove != [])
  {
    DistinctSize(add);
    DistinctSize(remove);
  }

  lemma TagsAnswered(base: Item, add: seq<string>, remove: seq<string>, supplied: int)
    ensures PlainRequest(add, remove) ==>
              AnswersByCount(base, add, remove, supplied, TagsAnswer(base, add, remove, supplied))
  {
    hide Effect, ExpectedCount, TagsOf, AcceptableTags, SetOf, HasVersion, VersionOf, PlainRequest;
    if PlainRequest(add, remove) {
      PlainIsAcceptable(add, remove);
      ExpectedCountIsExact(TagsOf(base), add, remove);
      EffectOnVersionAndTags(base, Write.Tags(add, remove));
    }
  }

  /** The settings a tag call works on. */
  function BaseRow(t: Table, k: Key): Item {
    if k in t then t[k] else DefaultSettings()
  }

  /** What an undisturbed tag call in its own namespace answers. */
  function TagsAnswer(base: Item, add: seq<string>, remove: seq<string>, supplied: int): Result<Item> {
    var w := Write.Tags(add, remove);
    if ExpectedCount(TagsOf(base), add, remove) > MAX_TAGS then Err(ForbiddenNamespace)
    else if add == [] && remove == [] then Ok(base)
    else if !Acceptable(w) then Err(Internal)
    else if Takes(base, w, supplied) then Ok(Effect(base, w))
    else Err(VersionConflict)
  }

  /** The members of a set in some order. */
  method Listing(members: set<string>) returns (list: seq<string>)
    ensures SetOf(list) == members
  {
    list := [];
    var todo := members;
    while todo != {}
      invariant SetOf(list) + todo == members
    {
      var tag :| tag in todo;
      assert SetOf(list + [tag]) == SetOf(list) + {tag};
      list := list + [tag];
      todo := todo - {tag};
    }
  }
}
