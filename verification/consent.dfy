/** The append-only consent log, keyed by channel and time (internal/db/consent.go). */
module Consent {
  import opened Basics
  import opened Dynamo
  import opened Accounts
  import opened Instants

  datatype Entry = Entry(
    channel: string, action: string, source: string,
    sourceRef: Option<string>, ipAddress: Option<string>, userAgent: Option<string>)

  const CONSENTS := "CONSENT#"

  function ChannelPrefix(channel: string): string {
    CONSENTS + channel + "#"
  }

  function ConsentSK(channel: string, at: nat): string {
    ChannelPrefix(channel) + Format(at)
  }

  function ConsentKey(id: string, channel: string, at: nat): Key {
    Key(AccountPK(id), ConsentSK(channel, at))
  }

  function EntryBase(e: Entry, at: nat): Item {
    map["channel" := S(e.channel), "action" := S(e.action), "source" := S(e.source), "recorded_at" := S(Format(at))]
  }

  function ConsentRow(e: Entry, at: nat): Item {
    EntryBase(e, at) + IfPresent("source_ref", e.sourceRef) + IfPresent("ip_address", e.ipAddress)
    + IfPresent("user_agent", e.userAgent)
  }

  function ToEntry(row: Item): Entry {
    Entry(
      StrAttr(row, "channel"), StrAttr(row, "action"), StrAttr(row, "source"),
      OptStr(StrAttr(row, "source_ref")), OptStr(StrAttr(row, "ip_address")), OptStr(StrAttr(row, "user_agent")))
  }

  /** An entry with the time it was recorded at. */
  datatype ConsentLog = ConsentLog(entry: Entry, recordedAt: nat)

  function ToLog(row: Item): ConsentLog {
    ConsentLog(ToEntry(row), ParseInstant(StrAttr(row, "recorded_at")))
  }

  /** A stored entry carries its fields under their names, and no empty reference, address or agent. */
  lemma ConsentRowShows(e: Entry, at: nat)
    ensures var row := ConsentRow(e, at);
      && Attribute(row, "channel") == Some(S(e.channel)) && Attribute(row, "action") == Some(S(e.action))
      && Attribute(row, "source") == Some(S(e.source)) && Attribute(row, "recorded_at") == Some(S(Format(at)))
      && Attribute(row, "source_ref") == TextIfAny(e.sourceRef)
      && Attribute(row, "ip_address") == TextIfAny(e.ipAddress)
      && Attribute(row, "user_agent") == TextIfAny(e.userAgent)
  {
    hide IfPresent, Format, TextIfAny, EntryBase, Attribute;
    EntryBaseAttrs(e, at);
    var row := EntryBase(e, at);
    AddedText(row, "source_ref", e.sourceRef);
    var row2 := row + IfPresent("source_ref", e.sourceRef);
    AddedText(row2, "ip_address", e.ipAddress);
    AddedText(row2 + IfPresent("ip_address", e.ipAddress), "user_agent", e.userAgent);
  }

  lemma AddedText(row: Item, attr: string, v: Option<string>)
    requires Attribute(row, attr) == None
    ensures Attribute(row + IfPresent(attr, v), attr) == TextIfAny(v)
    ensures forall other | other != attr :: Attribute(row + IfPresent(attr, v), other) == Attribute(row, other)
  {
  }

  lemma EntryBaseAttrs(e: Entry, at: nat)
    ensures var row := EntryBase(e, at);
      && Attribute(row, "channel") == Some(S(e.channel)) && Attribute(row, "action") == Some(S(e.action))
      && Attribute(row, "source") == Some(S(e.source)) && Attribute(row, "recorded_at") == Some(S(Format(at)))
      && Attribute(row, "source_ref") == None && Attribute(row, "ip_address") == None
      && Attribute(row, "user_agent") == None
  {
    hide Format;
  }

  /** An entry reads back as it was appended, with its time, and empty texts as absent ones. */
  lemma EntryRoundTrip(e: Entry, at: nat)
    ensures ToEntry(ConsentRow(e, at)) ==
              e.(sourceRef := OptStr(OrEmpty(e.sourceRef)), ipAddress := OptStr(OrEmpty(e.ipAddress)),
                 userAgent := OptStr(OrEmpty(e.userAgent)))
    ensures InRange(at) ==> ToLog(ConsentRow(e, at)).recordedAt == at
  {
    hide ConsentRow, Format, ParseInstant, InRange;
    ConsentRowShows(e, at);
    if InRange(at) {
      FormatParses(at);
    }
  }

  // ---------- the keys ----------

  /** Within a channel the keys sort by time, and no two instants share a key. */
  lemma ConsentKeysSortByTime(channel: string, a: nat, b: nat)
    requires InRange(a) && InRange(b)
    ensures LexLess(ConsentSK(channel, a), ConsentSK(channel, b)) <==> a < b
    ensures ConsentSK(channel, a) == ConsentSK(channel, b) <==> a == b
  {
    LexCancels(ChannelPrefix(channel), Format(a), Format(b));
    PrefixCancels(ChannelPrefix(channel), Format(a), Format(b));
    FormatOrder(a, b);
  }

  lemma ChannelShows(channel: string, sk: string)
    requires ChannelPrefix(channel) <= sk
    ensures |sk| > 8 + |channel| && sk[8..8 + |channel|] == channel && sk[8 + |channel|] == '#'
  {
  }

  /** A sort key lies under the prefix of one channel at most, as channels contain no '#'. */
  lemma ChannelsDisjoint(a: string, b: string, sk: string)
    requires '#' !in a && '#' !in b && ChannelPrefix(a) <= sk && ChannelPrefix(b) <= sk
    ensures a == b
  {
    ChannelShows(a, sk);
    ChannelShows(b, sk);
    hide ChannelPrefix;
  }

  /** So a key names its account, its channel and its instant. */
  lemma ConsentKeysDistinct(id: string, channel: string, at: nat, id2: string, channel2: string, at2: nat)
    requires '#' !in channel && '#' !in channel2 && InRange(at) && InRange(at2)
    ensures ConsentKey(id, channel, at) == ConsentKey(id2, channel2, at2)
       <==> id == id2 && channel == channel2 && at == at2
  {
    KeysApart();
    if ConsentSK(channel, at) == ConsentSK(channel2, at2) {
      ChannelsDisjoint(channel, channel2, ConsentSK(channel, at));
      ConsentKeysSortByTime(channel, at, at2);
    }
  }

  // ---------- the log in the table ----------

  predicate Logged(t: Table, id: string, channel: string, at: nat) {
    ConsentKey(id, channel, at) in t
  }

  function RefAt(t: Table, id: string, channel: string, at: nat): Option<string>
    requires Logged(t, id, channel, at)
  {
    OptStr(StrAttr(t[ConsentKey(id, channel, at)], "source_ref"))
  }

  /** Every row of the log is stored under the key of some channel and instant. */
  ghost predicate WellKeyed(t: Table) {
    forall k | k in t && CONSENTS <= k.sk :: exists channel, at :: KeyedAs(k, channel, at)
  }

  ghost predicate KeyedAs(k: Key, channel: string, at: nat) {
    '#' !in channel && InRange(at) && k.sk == ConsentSK(channel, at)
  }

  ghost predicate Latest(t: Table, id: string, channel: string, at: nat) {
    && InRange(at) && Logged(t, id, channel, at)
    && forall other: nat | InRange(other) && Logged(t, id, channel, other) :: other <= at
  }

  ghost predicate NothingLogged(t: Table, id: string, channel: string) {
    forall at: nat | InRange(at) :: !Logged(t, id, channel, at)
  }

  lemma UnderChannel(id: string, channel: string, at: nat)
    ensures Matches(ConsentKey(id, channel, at), AccountPK(id), ChannelPrefix(channel))
  {
  }

  /** The last key under a channel's prefix is the latest entry of that channel, no other. */
  lemma LastKeyIsLatest(t: Table, id: string, channel: string, hit: Key) returns (at: nat)
    requires WellKeyed(t) && '#' !in channel
    requires hit in t && Matches(hit, AccountPK(id), ChannelPrefix(channel))
    requires forall k :: k in t && Matches(k, AccountPK(id), ChannelPrefix(channel)) ==> !LexLess(hit.sk, k.sk)
    ensures hit == ConsentKey(id, channel, at) && Latest(t, id, channel, at)
  {
    hide Format, LexLess, InRange;
    assert CONSENTS <= hit.sk by { PrefixOfPrefix(channel, hit.sk); }
    var ch: string, a: nat :| KeyedAs(hit, ch, a);
    ChannelsDisjoint(ch, channel, hit.sk);
    at := a;
    forall other: nat | InRange(other) && Logged(t, id, channel, other) ensures other <= at {
      UnderChannel(id, channel, other);
      ConsentKeysSortByTime(channel, at, other);
    }
  }

  lemma PrefixOfPrefix(channel: string, sk: string)
    requires ChannelPrefix(channel) <= sk
    ensures CONSENTS <= sk
  {
  }

  // ---------- the repository ----------

  class ConsentRepo {
    const client: Client

    constructor (client: Client)
      ensures this.client == client
    {
      this.client := client;
    }

    /** The latest entry of the channel, if there is one. */
    method GetLatestConsent(id: string, channel: string) returns (r: Result<Option<ConsentLog>>)
      ensures r.Err? ==> r == Err(Internal)
      ensures client.healthy ==> r.Ok?
      ensures r == Ok(None) ==> NothingLogged(client.table, id, channel)
      ensures WellKeyed(client.table) && '#' !in channel && r.Ok? && r.value.Some? ==>
                exists at :: Latest(client.table, id, channel, at)
                          && r.value.value == ToLog(client.table[ConsentKey(id, channel, at)])
    {
      hide WellKeyed, InRange, AccountPK, Returned, LexLess, ToLog, Format;
      var ok, item, hit := client.QueryLast(AccountPK(id), ChannelPrefix(channel));
      if !ok {
        return Err(Internal);
      }
      if item.None? {
        forall at: nat | InRange(at) ensures !Logged(client.table, id, channel, at) {
          UnderChannel(id, channel, at);
        }
        return Ok(None);
      }
      if WellKeyed(client.table) && '#' !in channel {
        ghost var at := LastKeyIsLatest(client.table, id, channel, hit);
        ReturnedEntry(hit, client.table[hit]);
      }
      return Ok(Some(ToLog(item.value)));
    }

    /** Adds one entry, stamped now unless it carries a time; never replaces one. */
    method AppendConsentLog(id: string, entry: Entry, recordedAt: Option<nat>, now: nat) returns (s: Status)
      modifies client`table
      ensures var k := ConsentKey(id, entry.channel, if recordedAt.Some? then recordedAt.value else now);
        && (s.Done? ==> k !in old(client.table))
        && (s.Failed? ==> client.table == old(client.table) && s == Failed(Internal))
        && (client.healthy ==> (s.Done? <==> k !in old(client.table)))
      ensures s.Done? ==>
                var at := if recordedAt.Some? then recordedAt.value else now;
                client.table == old(client.table)[ConsentKey(id, entry.channel, at) := ConsentRow(entry, at)]
    {
      hide ConsentRow, ConsentSK, AccountPK;
      var at := now;
      if recordedAt.Some? {
        at := recordedAt.value;
      }
      var w := client.WriteRowIf(ConsentKey(id, entry.channel, at), ConsentRow(entry, at), NotExists);
      return if w.Written? then Done else Failed(Internal);
    }
  }

  lemma ReturnedEntry(k: Key, row: Item)
    ensures ToLog(Returned(k, row)) == ToLog(row)
  {
    hide ParseInstant;
  }

  // ---------- the log over runs ----------

  /** A valid unsubscribe presented at an instant: what it would record, and where. */
  datatype Presentation = Presentation(id: string, entry: Entry, at: nat)

  ghost predicate Replayed(t: Table, p: Presentation) {
    exists at :: Latest(t, p.id, p.entry.channel, at) && RefAt(t, p.id, p.entry.channel, at) == p.entry.sourceRef
  }

  /** A presentation adds its entry, unless the latest of its channel stems from the same token. */
  ghost predicate Presents(t: Table, p: Presentation, t': Table) {
    var k := ConsentKey(p.id, p.entry.channel, p.at);
    if Replayed(t, p) then t' == t else k !in t && t' == t[k := ConsentRow(p.entry, p.at)]
  }

  ghost predicate NoneBetween(t: Table, id: string, channel: string, a: nat, b: nat) {
    forall c: nat | a < c < b && InRange(c) :: !Logged(t, id, channel, c)
  }

  ghost predicate Adjacent(t: Table, id: string, channel: string, a: nat, b: nat) {
    && '#' !in channel && InRange(a) && InRange(b) && a < b
    && Logged(t, id, channel, a) && Logged(t, id, channel, b) && NoneBetween(t, id, channel, a, b)
  }

  /** Two entries of a channel with none between them stem from different tokens. */
  ghost predicate AdjacentDiffer(t: Table) {
    forall id, channel, a, b | Adjacent(t, id, channel, a, b) ::
      RefAt(t, id, channel, a) != RefAt(t, id, channel, b)
  }

  ghost predicate LogOk(t: Table) {
    WellKeyed(t) && AdjacentDiffer(t)
  }

  /** All entries are older than `at`. */
  ghost predicate Before(t: Table, at: nat) {
    forall id, channel, other: nat | '#' !in channel && InRange(other) && Logged(t, id, channel, other) :: other < at
  }

  ghost predicate Presentable(p: Presentation) {
    '#' !in p.entry.channel && InRange(p.at) && p.entry.sourceRef.Some? && p.entry.sourceRef.value != ""
  }

  ghost predicate IsAt(p: Presentation, id: string, channel: string, at: nat) {
    id == p.id && channel == p.entry.channel && at == p.at
  }

  ghost predicate AppendOnly(t: Table, t': Table) {
    forall k | k in t && CONSENTS <= k.sk :: k in t' && t'[k] == t[k]
  }

  /** What one entry more shows. */
  lemma Appended(t: Table, p: Presentation)
    requires Presentable(p) && ConsentKey(p.id, p.entry.channel, p.at) !in t
    ensures var t' := t[ConsentKey(p.id, p.entry.channel, p.at) := ConsentRow(p.entry, p.at)];
      && (forall id, channel, at: nat | '#' !in channel && InRange(at) ::
            Logged(t', id, channel, at) <==> Logged(t, id, channel, at) || IsAt(p, id, channel, at))
      && (forall id, channel, at: nat | '#' !in channel && InRange(at) && Logged(t, id, channel, at) ::
            RefAt(t', id, channel, at) == RefAt(t, id, channel, at))
      && Logged(t', p.id, p.entry.channel, p.at) && RefAt(t', p.id, p.entry.channel, p.at) == p.entry.sourceRef
  {
    hide ConsentRow, ConsentSK, AccountPK, InRange, StrAttr;
    assert ToEntry(ConsentRow(p.entry, p.at)).sourceRef == p.entry.sourceRef by { EntryRoundTrip(p.entry, p.at); }
    forall id, channel, at: nat | '#' !in channel && InRange(at)
      ensures ConsentKey(id, channel, at) == ConsentKey(p.id, p.entry.channel, p.at) <==> IsAt(p, id, channel, at)
    {
      ConsentKeysDistinct(id, channel, at, p.id, p.entry.channel, p.at);
    }
    hide ConsentKey;
  }

  lemma StillWellKeyed(t: Table, p: Presentation)
    requires WellKeyed(t) && Presentable(p)
    ensures WellKeyed(t[ConsentKey(p.id, p.entry.channel, p.at) := ConsentRow(p.entry, p.at)])
  {
    hide ConsentRow, ConsentSK, InRange;
    var k := ConsentKey(p.id, p.entry.channel, p.at);
    assert KeyedAs(k, p.entry.channel, p.at);
  }

  /** A new entry comes after the latest one, which stems from another token. */
  lemma PresentKeepsLog(t: Table, p: Presentation, t': Table)
    requires LogOk(t) && Presentable(p) && Before(t, p.at) && Presents(t, p, t')
    ensures LogOk(t') && AppendOnly(t, t')
  {
    hide ConsentRow, InRange, RefAt, Logged, WellKeyed, Replayed, ConsentSK, Before, AccountPK;
    if !Replayed(t, p) {
      StillWellKeyed(t, p);
      forall id, channel, a, b | Adjacent(t', id, channel, a, b)
        ensures RefAt(t', id, channel, a) != RefAt(t', id, channel, b)
      {
        NewPairDiffers(t, p, t', id, channel, a, b);
      }
    }
  }

  lemma PresentMovesClock(t: Table, p: Presentation, t': Table, later: nat)
    requires Presentable(p) && Before(t, p.at) && Presents(t, p, t') && p.at < later
    ensures Before(t', later)
  {
    if !Replayed(t, p) {
      Appended(t, p);
    }
    hide ConsentKey, ConsentRow, InRange, RefAt, Logged, Replayed;
  }

  lemma NewPairDiffers(t: Table, p: Presentation, t': Table, id: string, channel: string, a: nat, b: nat)
    requires AdjacentDiffer(t) && Presentable(p) && Before(t, p.at) && !Replayed(t, p)
    requires ConsentKey(p.id, p.entry.channel, p.at) !in t
    requires t' == t[ConsentKey(p.id, p.entry.channel, p.at) := ConsentRow(p.entry, p.at)]
    requires Adjacent(t', id, channel, a, b)
    ensures RefAt(t', id, channel, a) != RefAt(t', id, channel, b)
  {
    Appended(t, p);
    hide ConsentKey, ConsentRow, InRange, RefAt, Logged;
    if IsAt(p, id, channel, b) {
      assert Logged(t, id, channel, a);
      assert Latest(t, id, channel, a);
    } else {
      assert Logged(t, id, channel, b) && b < p.at;
      assert Adjacent(t, id, channel, a, b);
    }
  }

  // ---------- whole runs without erasure ----------

  /** Calls on the log one at a time; `Elsewhere` is any call that leaves the log alone. */
  datatype Step = Present(p: Presentation) | Elsewhere

  ghost predicate StepsTo(t: Table, step: Step, t': Table) {
    match step
    case Present(p) => Presentable(p) && (t' == t || Presents(t, p, t'))
    case Elsewhere => forall k: Key | CONSENTS <= k.sk :: Row(t', k) == Row(t, k)
  }

  /** The clock strictly increases from one presentation to the next. */
  ghost predicate Ticking(steps: seq<Step>) {
    forall i, j | 0 <= i < j < |steps| && steps[i].Present? && steps[j].Present? :: steps[i].p.at < steps[j].p.at
  }

  ghost predicate Run(states: seq<Table>, steps: seq<Step>) {
    && |states| == |steps| + 1 && Ticking(steps)
    && (forall i | 0 <= i < |steps| :: StepsTo(states[i], steps[i], states[i + 1]))
    && (forall i | 0 <= i < |steps| && steps[i].Present? :: Before(states[0], steps[i].p.at))
  }

  lemma SameLog(t: Table, t': Table)
    requires StepsTo(t, Elsewhere, t')
    ensures forall id, channel, at: nat :: Row(t', ConsentKey(id, channel, at)) == Row(t, ConsentKey(id, channel, at))
    ensures forall id, channel, at: nat :: Logged(t', id, channel, at) <==> Logged(t, id, channel, at)
  {
  }

  lemma ElsewhereKeepsLog(t: Table, t': Table)
    requires LogOk(t) && StepsTo(t, Elsewhere, t')
    ensures LogOk(t') && AppendOnly(t, t')
  {
    hide InRange, ConsentSK, AccountPK, StrAttr;
    SameLog(t, t');
    forall k: Key | CONSENTS <= k.sk ensures k in t' <==> k in t {
      assert Row(t', k) == Row(t, k);
    }
    hide Logged, ConsentKey;
    forall id, channel, a, b | Adjacent(t', id, channel, a, b)
      ensures RefAt(t', id, channel, a) != RefAt(t', id, channel, b)
    {
      SameRef(t, t', id, channel, a);
      SameRef(t, t', id, channel, b);
      assert Adjacent(t, id, channel, a, b);
    }
    forall k | k in t && CONSENTS <= k.sk ensures k in t' && t'[k] == t[k] {
      assert Row(t', k) == Row(t, k);
    }
  }

  lemma SameRef(t: Table, t': Table, id: string, channel: string, at: nat)
    requires Row(t', ConsentKey(id, channel, at)) == Row(t, ConsentKey(id, channel, at))
    requires Logged(t', id, channel, at)
    ensures Logged(t, id, channel, at) && RefAt(t, id, channel, at) == RefAt(t', id, channel, at)
  {
  }

  lemma StepKeepsLog(t: Table, step: Step, t': Table)
    requires LogOk(t) && StepsTo(t, step, t') && (step.Present? ==> Before(t, step.p.at))
    ensures LogOk(t') && AppendOnly(t, t')
    ensures forall later: nat | Before(t, later) && (step.Present? ==> step.p.at < later) :: Before(t', later)
  {
    hide LogOk, Presents, Presentable, Logged, InRange;
    match step {
      case Present(p) =>
        if t' != t {
          PresentKeepsLog(t, p, t');
          forall later: nat | p.at < later ensures Before(t', later) {
            PresentMovesClock(t, p, t', later);
          }
        }
      case Elsewhere =>
        ElsewhereKeepsLog(t, t');
        SameLog(t, t');
    }
  }

  /** In every state of a run no logged entry has changed or gone, and no two neighbours of a
      channel stem from one token. */
  lemma {:induction false} LogStaysSafe(states: seq<Table>, steps: seq<Step>, n: nat)
    requires Run(states, steps) && LogOk(states[0]) && n <= |steps|
    ensures LogOk(states[n]) && AppendOnly(states[0], states[n])
    ensures forall j | n <= j < |steps| && steps[j].Present? :: Before(states[n], steps[j].p.at)
  {
    hide LogOk, Before, StepsTo;
    if n > 0 {
      LogStaysSafe(states, steps, n - 1);
      StepKeepsLog(states[n - 1], steps[n - 1], states[n]);
    }
  }

  /** The same token presented again right after finds its own entry and adds none. */
  lemma PresentedIsReplayed(t: Table, p: Presentation, t': Table, again: Presentation)
    requires LogOk(t) && Presentable(p) && Before(t, p.at) && Presents(t, p, t')
    requires again.id == p.id && again.entry.channel == p.entry.channel && again.entry.sourceRef == p.entry.sourceRef
    ensures Replayed(t', again)
  {
    if Replayed(t, p) {
      hide InRange, Latest, RefAt;
    } else {
      Appended(t, p);
      hide ConsentKey, ConsentRow, InRange, RefAt, Logged;
      assert Latest(t', p.id, p.entry.channel, p.at);
    }
  }

  /** However often one token is presented in a row, only the first time adds an entry. */
  lemma {:induction false} RepeatsAddOne(states: seq<Table>, ps: seq<Presentation>, n: nat)
    requires |states| == |ps| + 1 && 1 <= n <= |ps| && LogOk(states[0])
    requires Presentable(ps[0]) && Before(states[0], ps[0].at)
    requires forall i | 0 <= i < |ps| :: Presents(states[i], ps[i], states[i + 1])
    requires forall i | 0 <= i < |ps| ::
               && ps[i].id == ps[0].id && ps[i].entry.channel == ps[0].entry.channel
               && ps[i].entry.sourceRef == ps[0].entry.sourceRef
    ensures states[n] == states[1]
    ensures Replayed(states[0], ps[0]) ==> states[n] == states[0]
    ensures !Replayed(states[0], ps[0]) ==> |states[n].Keys| == |states[0].Keys| + 1
  {
    hide LogOk, Before, Presentable, Replayed, ConsentRow, ConsentKey;
    assert Presents(states[0], ps[0], states[1]);
    if n > 1 {
      RepeatsAddOne(states, ps, n - 1);
      PresentedIsReplayed(states[0], ps[0], states[1], ps[n - 1]);
      assert Presents(states[n - 1], ps[n - 1], states[n]);
    } else if !Replayed(states[0], ps[0]) {
      var k := ConsentKey(ps[0].id, ps[0].entry.channel, ps[0].at);
      assert states[1].Keys == states[0].Keys + {k};
    }
  }
}
