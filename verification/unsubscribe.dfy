/** Unsubscribe tokens: framing, signature, expiry and replay (internal/api/unsubscribe.go).
    The keyed hash (HMAC, section 2 of RFC 2104) is any function to 32-byte digests; the JSON
    reader is any function that reads printed payloads back. */
module Unsubscribe {
  import opened Basics
  import opened Dynamo
  import opened Accounts
  import opened Instants
  import opened Consent
  import opened Base64Url
  import Utf8

  const DIGEST_SIZE := 32

  type Digest = d: seq<Byte> | |d| == DIGEST_SIZE witness seq(DIGEST_SIZE, _ => 0)

  type Mac = (seq<Byte>, seq<Byte>) -> Digest

  datatype Payload = Payload(accountId: string, channel: string, exp: int, jti: string)

  const CHANNELS := {"email", "sms", "push", "postal"}

  lemma ChannelsHaveNoHash(channel: string)
    requires channel in CHANNELS
    ensures '#' !in channel
  {
  }

  // ---------- the payload as JSON ----------

  const ACCOUNT_MARK := "{\"account_id\":\""
  const CHANNEL_MARK := "\",\"channel\":\""
  const EXP_MARK := "\",\"exp\":"
  const JTI_MARK := ",\"jti\":\""
  const CLOSING := "\"}"

  function HexDigit(d: nat): char
    requires d < 16
  {
    if d < 10 then Digit(d) else ('a' as int + d - 10) as char
  }

  function HexValue(c: char): Option<nat> {
    if '0' <= c <= '9' then Some(c as int - '0' as int)
    else if 'a' <= c <= 'f' then Some(c as int - 'a' as int + 10)
    else if 'A' <= c <= 'F' then Some(c as int - 'A' as int + 10)
    else None
  }

  function Hex4(n: nat): (s: string)
    requires n < 0x1_0000
    ensures |s| == 4
  {
    [HexDigit(n / 4096), HexDigit(n / 256 % 16), HexDigit(n / 16 % 16), HexDigit(n % 16)]
  }

  /** The character of four hexadecimal digits; a lone surrogate is none. */
  function Unhex4(s: string): Option<char>
    requires |s| == 4
  {
    var a, b, c, d := HexValue(s[0]), HexValue(s[1]), HexValue(s[2]), HexValue(s[3]);
    if a.None? || b.None? || c.None? || d.None? then None
    else
      var n := a.value * 4096 + b.value * 256 + c.value * 16 + d.value;
      if n < 0xD800 || 0xE000 <= n < 0x1_0000 then Some(n as char) else None
  }

  /** The one-letter escapes: the letter after the backslash. */
  function ShortEscape(c: char): Option<char> {
    if c == '"' || c == '\\' then Some(c)
    else if c == '\n' then Some('n')
    else if c == '\r' then Some('r')
    else if c == '\t' then Some('t')
    else if c == 8 as char then Some('b')
    else if c == 12 as char then Some('f')
    else None
  }

  function Unescape(letter: char): Option<char> {
    if letter == '"' || letter == '\\' || letter == '/' then Some(letter)
    else if letter == 'n' then Some('\n')
    else if letter == 'r' then Some('\r')
    else if letter == 't' then Some('\t')
    else if letter == 'b' then Some(8 as char)
    else if letter == 'f' then Some(12 as char)
    else None
  }

  /** Control characters, and those that could end a script or a line in a browser. */
  predicate NeedsHex(c: char) {
    c < ' ' || c == '<' || c == '>' || c == '&' || c == 0x2028 as char || c == 0x2029 as char
  }

  function EscapeChar(c: char): (s: string)
    ensures s != ""
  {
    if ShortEscape(c).Some? then ['\\', ShortEscape(c).value]
    else if NeedsHex(c) then ['\\', 'u'] + Hex4(c as int)
    else [c]
  }

  function Escape(s: string): string {
    if s == "" then "" else EscapeChar(s[0]) + Escape(s[1..])
  }

  function PrintNat(n: nat): string {
    if n < 10 then [Digit(n)] else PrintNat(n / 10) + [Digit(n % 10)]
  }

  function PrintInt(n: int): string {
    if n < 0 then "-" + PrintNat(-n) else PrintNat(n)
  }

  function Print(p: Payload): string {
    ACCOUNT_MARK + (Escape(p.accountId) + (CHANNEL_MARK + (Escape(p.channel) + (EXP_MARK + (PrintInt(p.exp)
    + (JTI_MARK + (Escape(p.jti) + CLOSING)))))))
  }

  /** Parsed text and what is left. */
  datatype Parsed<T> = Parsed(value: T, rest: string)

  /** One possibly escaped character of a JSON text; none at its end or at anything malformed. */
  function TakeChar(s: string): Option<Parsed<char>> {
    if s == "" || s[0] == '"' || s[0] < ' ' then None
    else if s[0] != '\\' then Some(Parsed(s[0], s[1..]))
    else if |s| >= 2 && Unescape(s[1]).Some? then Some(Parsed(Unescape(s[1]).value, s[2..]))
    else if |s| >= 6 && s[1] == 'u' && Unhex4(s[2..6]).Some? then Some(Parsed(Unhex4(s[2..6]).value, s[6..]))
    else None
  }

  lemma TakeCharShrinks(s: string)
    requires TakeChar(s).Some?
    ensures |TakeChar(s).value.rest| < |s|
  {
  }

  function TakeText(s: string): Parsed<string>
    decreases |s|
  {
    var c := TakeChar(s);
    if c.None? then Parsed("", s)
    else
      TakeCharShrinks(s);
      var more := TakeText(c.value.rest);
      more.(value := [c.value.value] + more.value)
  }

  predicate IsDigit(c: char) {
    '0' <= c <= '9'
  }

  function TakeDigits(s: string, sofar: nat): Parsed<nat> {
    if s != "" && IsDigit(s[0]) then TakeDigits(s[1..], sofar * 10 + (s[0] as int - '0' as int)) else Parsed(sofar, s)
  }

  function TakeInt(s: string): Option<Parsed<int>> {
    var negative := s != "" && s[0] == '-';
    var digits := if negative then s[1..] else s;
    if digits == "" || !IsDigit(digits[0]) then None
    else
      var n := TakeDigits(digits, 0);
      var value: int := if negative then 0 - n.value else n.value;
      Some(Parsed(value, n.rest))
  }

  function Expect(mark: string, s: string): Option<string> {
    if mark <= s then Some(s[|mark|..]) else None
  }

  /** A fixed text and the JSON text after it. */
  function TakeField(mark: string, s: string): Option<Parsed<string>> {
    var rest := Expect(mark, s);
    if rest.None? then None else Some(TakeText(rest.value))
  }

  function Parse(s: string): Option<Payload> {
    var id := TakeField(ACCOUNT_MARK, s);
    if id.None? then None else
    var channel := TakeField(CHANNEL_MARK, id.value.rest);
    if channel.None? then None else
    var number := Expect(EXP_MARK, channel.value.rest);
    if number.None? then None else
    var exp := TakeInt(number.value);
    if exp.None? then None else
    var jti := TakeField(JTI_MARK, exp.value.rest);
    if jti.None? || jti.value.rest != CLOSING then None
    else Some(Payload(id.value.value, channel.value.value, exp.value.value, jti.value.value))
  }

  lemma HexRoundTrip(c: char)
    requires c as int < 0x1_0000
    ensures Unhex4(Hex4(c as int)) == Some(c)
  {
    var n := c as int;
    assert n == n / 16 * 16 + n % 16;
    assert n / 16 == n / 256 * 16 + n / 16 % 16 by { assert n / 256 == n / 16 / 16; }
    assert n / 256 == n / 4096 * 16 + n / 256 % 16 by { assert n / 4096 == n / 256 / 16; }
    HexDigits(n / 4096);
    HexDigits(n / 256 % 16);
    HexDigits(n / 16 % 16);
    HexDigits(n % 16);
    hide HexDigit, HexValue;
  }

  lemma HexDigits(d: nat)
    requires d < 16
    ensures HexValue(HexDigit(d)) == Some(d)
  {
  }

  lemma ShortTaken(c: char, rest: string)
    requires ShortEscape(c).Some?
    ensures TakeChar(['\\', ShortEscape(c).value] + rest) == Some(Parsed(c, rest))
  {
    hide Unhex4;
    assert (['\\', ShortEscape(c).value] + rest)[2..] == rest;
  }

  lemma HexTaken(c: char, rest: string)
    requires NeedsHex(c)
    ensures TakeChar(['\\', 'u'] + Hex4(c as int) + rest) == Some(Parsed(c, rest))
  {
    HexRoundTrip(c);
    hide Unhex4, Hex4;
    var s := ['\\', 'u'] + Hex4(c as int) + rest;
    assert s[2..6] == Hex4(c as int) && s[6..] == rest && s[1] == 'u';
  }

  lemma RawTaken(c: char, rest: string)
    requires ShortEscape(c).None? && !NeedsHex(c)
    ensures TakeChar([c] + rest) == Some(Parsed(c, rest))
  {
    hide Unhex4, Unescape;
    assert ([c] + rest)[1..] == rest;
  }

  lemma CharTaken(c: char, rest: string)
    ensures TakeChar(EscapeChar(c) + rest) == Some(Parsed(c, rest))
  {
    hide TakeChar, ShortEscape, NeedsHex, Hex4;
    if ShortEscape(c).Some? {
      ShortTaken(c, rest);
    } else if NeedsHex(c) {
      HexTaken(c, rest);
    } else {
      RawTaken(c, rest);
    }
  }

  lemma TextEnds(rest: string)
    requires rest != "" && rest[0] == '"'
    ensures TakeText(rest) == Parsed("", rest)
  {
  }

  lemma TextGoesOn(s: string, c: char, rest: string, text: string, end: string)
    requires TakeChar(s) == Some(Parsed(c, rest)) && TakeText(rest) == Parsed(text, end)
    ensures TakeText(s) == Parsed([c] + text, end)
  {
    hide TakeChar;
  }

  lemma {:induction false} TextTaken(s: string, rest: string)
    requires rest != "" && rest[0] == '"'
    ensures TakeText(Escape(s) + rest) == Parsed(s, rest)
  {
    hide EscapeChar, TakeChar, TakeText;
    if s == "" {
      assert Escape(s) + rest == rest;
      TextEnds(rest);
    } else {
      var more := Escape(s[1..]) + rest;
      TextTaken(s[1..], rest);
      CharTaken(s[0], more);
      assert Escape(s) + rest == EscapeChar(s[0]) + more;
      TextGoesOn(EscapeChar(s[0]) + more, s[0], more, s[1..], rest);
      assert s == [s[0]] + s[1..];
    }
  }

  lemma FieldTaken(mark: string, s: string, rest: string)
    requires rest != "" && rest[0] == '"'
    ensures TakeField(mark, mark + (Escape(s) + rest)) == Some(Parsed(s, rest))
  {
    assert (mark + (Escape(s) + rest))[|mark|..] == Escape(s) + rest;
    TextTaken(s, rest);
  }

  lemma {:induction false} DigitsTaken(n: nat, rest: string)
    ensures TakeDigits(PrintNat(n) + rest, 0) == TakeDigits(rest, n)
    ensures PrintNat(n) != "" && IsDigit(PrintNat(n)[0])
  {
    if n < 10 {
      assert (PrintNat(n) + rest)[1..] == rest;
    } else {
      var last := [Digit(n % 10)];
      assert PrintNat(n) + rest == PrintNat(n / 10) + (last + rest);
      DigitsTaken(n / 10, last + rest);
      assert (last + rest)[1..] == rest;
    }
  }

  lemma IntTaken(n: int, rest: string)
    requires rest == "" || !IsDigit(rest[0])
    ensures TakeInt(PrintInt(n) + rest) == Some(Parsed(n, rest))
  {
    var m := if n < 0 then -n else n;
    DigitsTaken(m, rest);
    if n < 0 {
      assert (PrintInt(n) + rest)[1..] == PrintNat(m) + rest;
    }
  }

  lemma MarksStart()
    ensures |CHANNEL_MARK| > 0 && CHANNEL_MARK[0] == '"' && |EXP_MARK| > 0 && EXP_MARK[0] == '"'
    ensures |CLOSING| > 0 && CLOSING[0] == '"' && |JTI_MARK| > 0 && !IsDigit(JTI_MARK[0])
  {
  }

  lemma Expected(mark: string, rest: string)
    ensures Expect(mark, mark + rest) == Some(rest)
  {
  }

  /** Every printed payload parses back, whatever characters its texts hold. */
  lemma PayloadRoundTrip(p: Payload)
    ensures Parse(Print(p)) == Some(p)
  {
    hide TakeInt, PrintInt, TakeField, Escape, IsDigit, Expect, ACCOUNT_MARK, CHANNEL_MARK, EXP_MARK, JTI_MARK, CLOSING;
    MarksStart();
    var s5 := JTI_MARK + (Escape(p.jti) + CLOSING);
    var s4 := PrintInt(p.exp) + s5;
    var s3 := EXP_MARK + s4;
    var s2 := CHANNEL_MARK + (Escape(p.channel) + s3);
    FieldTaken(ACCOUNT_MARK, p.accountId, s2);
    FieldTaken(CHANNEL_MARK, p.channel, s3);
    Expected(EXP_MARK, s4);
    IntTaken(p.exp, s5);
    FieldTaken(JTI_MARK, p.jti, CLOSING);
  }

  /** The signed bytes of a payload. */
  function Marshal(p: Payload): seq<Byte> {
    Utf8.Encode(Print(p))
  }

  function Unmarshal(b: seq<Byte>): Option<Payload> {
    var text := Utf8.Decode(b);
    if text.None? then None else Parse(text.value)
  }

  ghost predicate Reads(read: seq<Byte> -> Option<Payload>) {
    forall p :: read(Marshal(p)) == Some(p)
  }

  lemma UnmarshalReads()
    ensures Reads(Unmarshal)
  {
    hide Parse, Print;
    forall p ensures Unmarshal(Marshal(p)) == Some(p) {
      Utf8.RoundTrip(Print(p));
      PayloadRoundTrip(p);
    }
  }

  /** A JSON reader accepts what it will, but reads every printed payload back; `Unmarshal` is one. */
  type Reader = read: seq<Byte> -> Option<Payload> | Reads(read) ghost witness (UnmarshalReads(); Unmarshal)

  // ---------- tokens ----------

  function Truncated(s: string): string {
    if |s| > 256 then s[..256] else s
  }

  /** What is kept is the beginning, all of it up to 256 characters. */
  lemma TruncatedKeeps(s: string)
    ensures Truncated(s) <= s && |Truncated(s)| == (if |s| < 256 then |s| else 256)
    ensures |s| <= 256 ==> Truncated(s) == s
  {
  }

  function ParseUnsubToken(read: Reader, payload: seq<Byte>, unixNow: int): Result<Payload> {
    var parsed := read(payload);
    if parsed.None? then Err(InvalidToken)
    else if parsed.value.jti == "" then Err(InvalidToken)
    else
      var p := parsed.value.(jti := Truncated(parsed.value.jti));
      if unixNow > p.exp then Err(InvalidToken)
      else if p.channel !in CHANNELS then Err(InvalidChannel)
      else Ok(p)
  }

  /** The checks of a presented token in their order: key, framing, signature, contents. */
  function OpenToken(read: Reader, mac: Mac, key: seq<Byte>, token: string, unixNow: int): Result<Payload> {
    if key == [] then Err(Internal)
    else
      var raw := Decode(token);
      if raw.None? || |raw.value| < DIGEST_SIZE then Err(InvalidToken)
      else
        var n := |raw.value| - DIGEST_SIZE;
        if mac(key, raw.value[..n]) != raw.value[n..] then Err(InvalidToken)
        else ParseUnsubToken(read, raw.value[..n], unixNow)
  }

  function Signed(mac: Mac, key: seq<Byte>, payload: seq<Byte>): seq<Byte> {
    payload + mac(key, payload)
  }

  ghost predicate Opens(read: Reader, payload: seq<Byte>, unixNow: int, p: Payload) {
    var parsed := read(payload);
    && parsed.Some? && parsed.value.jti != "" && p == parsed.value.(jti := Truncated(parsed.value.jti))
    && unixNow <= p.exp && p.channel in CHANNELS
  }

  lemma ParsedExactly(read: Reader, payload: seq<Byte>, unixNow: int, p: Payload)
    ensures ParseUnsubToken(read, payload, unixNow) == Ok(p) <==> Opens(read, payload, unixNow, p)
  {
    hide CHANNELS, Truncated;
  }

  /** Cut into payload and digest, a signed payload is checked for its contents only. */
  lemma SignedIsParsed(read: Reader, mac: Mac, key: seq<Byte>, token: string, payload: seq<Byte>, unixNow: int)
    requires key != [] && Decode(token) == Some(Signed(mac, key, payload))
    ensures OpenToken(read, mac, key, token, unixNow) == ParseUnsubToken(read, payload, unixNow)
  {
    hide Decode, ParseUnsubToken;
    var raw := Decode(token).value;
    assert raw[..|raw| - DIGEST_SIZE] == payload && raw[|raw| - DIGEST_SIZE..] == mac(key, payload);
  }

  lemma OpenedIsSigned(read: Reader, mac: Mac, key: seq<Byte>, token: string, unixNow: int)
    returns (payload: seq<Byte>)
    requires OpenToken(read, mac, key, token, unixNow).Ok?
    ensures key != [] && Decode(token) == Some(Signed(mac, key, payload))
  {
    hide Decode, ParseUnsubToken;
    var raw := Decode(token).value;
    payload := raw[..|raw| - DIGEST_SIZE];
    assert Signed(mac, key, payload) == raw;
  }

  /** A token opens exactly when it frames a payload signed under the key that reads as one with
      an id, a valid channel and an expiry not yet passed. */
  lemma TokenOpensExactly(read: Reader, mac: Mac, key: seq<Byte>, token: string, unixNow: int, p: Payload)
    ensures OpenToken(read, mac, key, token, unixNow) == Ok(p) <==>
              key != [] && exists payload ::
                Decode(token) == Some(Signed(mac, key, payload)) && Opens(read, payload, unixNow, p)
  {
    hide Decode, ParseUnsubToken, Opens, Signed, OpenToken;
    if OpenToken(read, mac, key, token, unixNow) == Ok(p) {
      var payload := OpenedIsSigned(read, mac, key, token, unixNow);
      SignedIsParsed(read, mac, key, token, payload, unixNow);
      ParsedExactly(read, payload, unixNow, p);
    }
    if key != [] {
      forall payload | Decode(token) == Some(Signed(mac, key, payload)) && Opens(read, payload, unixNow, p)
        ensures OpenToken(read, mac, key, token, unixNow) == Ok(p)
      {
        SignedIsParsed(read, mac, key, token, payload, unixNow);
        ParsedExactly(read, payload, unixNow, p);
      }
    }
  }

  /** The payload was meant for a channel that is none, and would open but for that. */
  ghost predicate OffChannel(read: Reader, payload: seq<Byte>, unixNow: int) {
    var parsed := read(payload);
    && parsed.Some? && parsed.value.jti != "" && unixNow <= parsed.value.exp
    && parsed.value.channel !in {"email", "sms", "push", "postal"}
  }

  /** A token that does not open is refused for want of a key, for its channel, or else as invalid. */
  lemma RefusedFor(read: Reader, mac: Mac, key: seq<Byte>, token: string, unixNow: int)
    ensures OpenToken(read, mac, key, token, unixNow) == Err(Internal) <==> key == []
    ensures OpenToken(read, mac, key, token, unixNow) == Err(InvalidChannel) <==>
              key != [] && exists payload ::
                Decode(token) == Some(Signed(mac, key, payload)) && OffChannel(read, payload, unixNow)
    ensures var r := OpenToken(read, mac, key, token, unixNow);
      r.Err? ==> r.error in {Internal, InvalidChannel, InvalidToken}
  {
    hide Decode, Signed, OffChannel, OpenToken, ParseUnsubToken;
    ParsedOffChannel(read, unixNow);
    if OpenToken(read, mac, key, token, unixNow) == Err(InvalidChannel) {
      var payload := RefusedIsSigned(read, mac, key, token, unixNow);
      SignedIsParsed(read, mac, key, token, payload, unixNow);
    }
    RefusalsOf(read, mac, key, token, unixNow);
    if key != [] {
      forall payload | Decode(token) == Some(Signed(mac, key, payload)) && OffChannel(read, payload, unixNow)
        ensures OpenToken(read, mac, key, token, unixNow) == Err(InvalidChannel)
      {
        SignedIsParsed(read, mac, key, token, payload, unixNow);
      }
    }
  }

  lemma ParsedOffChannel(read: Reader, unixNow: int)
    ensures forall payload :: ParseUnsubToken(read, payload, unixNow) == Err(InvalidChannel) <==>
              OffChannel(read, payload, unixNow)
  {
    hide Truncated;
  }

  lemma RefusalsOf(read: Reader, mac: Mac, key: seq<Byte>, token: string, unixNow: int)
    ensures OpenToken(read, mac, key, token, unixNow) == Err(Internal) <==> key == []
    ensures var r := OpenToken(read, mac, key, token, unixNow);
      r.Err? ==> r.error in {Internal, InvalidChannel, InvalidToken}
  {
    hide Decode, Truncated;
  }

  lemma RefusedIsSigned(read: Reader, mac: Mac, key: seq<Byte>, token: string, unixNow: int)
    returns (payload: seq<Byte>)
    requires OpenToken(read, mac, key, token, unixNow) == Err(InvalidChannel)
    ensures key != [] && Decode(token) == Some(Signed(mac, key, payload))
  {
    hide Decode, ParseUnsubToken;
    var raw := Decode(token).value;
    payload := raw[..|raw| - DIGEST_SIZE];
    assert Signed(mac, key, payload) == raw;
  }

  /** A minted token recovers account, channel and id exactly while the Unix second is at most
      its expiry. */
  lemma MintedTokenOpens(read: Reader, mac: Mac, key: seq<Byte>, p: Payload, unixNow: int)
    requires key != [] && p.channel in CHANNELS && p.jti != ""
    ensures OpenToken(read, mac, key, Encode(Signed(mac, key, Marshal(p))), unixNow) ==
              if unixNow <= p.exp then Ok(p.(jti := Truncated(p.jti))) else Err(InvalidToken)
  {
    hide Marshal, Encode, Decode, CHANNELS, OpenToken, Signed;
    var payload := Marshal(p);
    RoundTrip(Signed(mac, key, payload));
    SignedIsParsed(read, mac, key, Encode(Signed(mac, key, payload)), payload, unixNow);
  }

  // ---------- the service ----------

  /** What an opened token records. */
  function OptOut(p: Payload, ipAddr: string, userAgent: string): Entry {
    Entry(p.channel, "opt_out", "unsubscribe_link", Some(p.jti), Some(Truncated(ipAddr)), Some(Truncated(userAgent)))
  }

  /** The beginning of a text, up to 256 characters, and nothing of an empty one. */
  ghost predicate IsBeginning(shown: Option<string>, s: string) {
    && (shown.None? <==> s == "")
    && (shown.Some? ==> shown.value <= s && |shown.value| == if |s| < 256 then |s| else 256)
  }

  /** The log shows that the holder of the token has opted out. */
  ghost predicate ShowsOptOut(log: ConsentLog, p: Payload, ipAddr: string, userAgent: string, at: nat) {
    && log.recordedAt == at && log.entry.channel == p.channel
    && log.entry.action == "opt_out" && log.entry.source == "unsubscribe_link" && log.entry.sourceRef == Some(p.jti)
    && IsBeginning(log.entry.ipAddress, ipAddr) && IsBeginning(log.entry.userAgent, userAgent)
  }

  /** The latest entry of the channel stems from another token, if there is one. */
  ghost predicate NotPresentedLast(t: Table, p: Payload) {
    forall at: nat | Latest(t, p.accountId, p.channel, at) :: RefAt(t, p.accountId, p.channel, at) != Some(p.jti)
  }

  lemma OptOutReadsBack(p: Payload, ipAddr: string, userAgent: string, at: nat)
    requires p.jti != "" && InRange(at)
    ensures ShowsOptOut(ToLog(ConsentRow(OptOut(p, ipAddr, userAgent), at)), p, ipAddr, userAgent, at)
  {
    EntryRoundTrip(OptOut(p, ipAddr, userAgent), at);
    TruncatedKeeps(ipAddr);
    TruncatedKeeps(userAgent);
    hide ConsentRow, Truncated, InRange, ParseInstant;
  }

  /** A token that was not the last one presented leaves an opt-out as the latest entry of its channel. */
  lemma OptOutIsLatest(t: Table, p: Payload, ipAddr: string, userAgent: string, at: nat, t': Table)
    requires '#' !in p.channel && p.jti != ""
    ensures Presents(t, Presentation(p.accountId, OptOut(p, ipAddr, userAgent), at), t')
            && InRange(at) && NotPresentedLast(t, p) ==>
              && Logged(t', p.accountId, p.channel, at)
              && ShowsOptOut(ToLog(t'[ConsentKey(p.accountId, p.channel, at)]), p, ipAddr, userAgent, at)
              && (Before(t, at) ==> Latest(t', p.accountId, p.channel, at))
  {
    hide ConsentRow, InRange, ToLog, ConsentKey, ShowsOptOut, RefAt;
    var present := Presentation(p.accountId, OptOut(p, ipAddr, userAgent), at);
    if Presents(t, present, t') && InRange(at) && NotPresentedLast(t, p) {
      OptOutReadsBack(p, ipAddr, userAgent, at);
      assert !Replayed(t, present);
      Appended(t, present);
    }
  }

  const DEFAULT_TOKEN_TTL := 30 * 24 * 3_600 * NANOS

  class UnsubscribeService {
    const accounts: AccountRepo
    const consents: ConsentRepo
    const key: seq<Byte>
    const mac: Mac
    const read: Reader
    const tokenTTL: nat

    constructor (
      accounts: AccountRepo, consents: ConsentRepo, key: seq<Byte>, mac: Mac, read: Reader, tokenTTL: int)
      ensures this.accounts == accounts && this.consents == consents && this.key == key
      ensures this.mac == mac && this.read == read
      ensures this.tokenTTL == if tokenTTL <= 0 then DEFAULT_TOKEN_TTL else tokenTTL
    {
      this.accounts, this.consents, this.key, this.mac, this.read := accounts, consents, key, mac, read;
      this.tokenTTL := if tokenTTL <= 0 then DEFAULT_TOKEN_TTL else tokenTTL;
    }

    /** A minted token opens under the service's key, for the account and channel it was minted
        for, until its time to live is over. */
    method MintUnsubscribeToken(id: string, channel: string, now: nat, freshId: string) returns (r: Result<string>)
      ensures r.Ok? && freshId != "" ==>
                var exp := UnixSeconds(now + tokenTTL);
                forall at: int :: OpenToken(read, mac, key, r.value, at) ==
                  if at <= exp then Ok(Payload(id, channel, exp, Truncated(freshId))) else Err(InvalidToken)
      ensures r.Ok? && 0 < |freshId| <= 256 ==>
                forall later: nat ::
                  && (later <= now + tokenTTL ==>
                        OpenToken(read, mac, key, r.value, UnixSeconds(later))
                        == Ok(Payload(id, channel, UnixSeconds(now + tokenTTL), freshId)))
                  && (later >= now + tokenTTL + NANOS ==>
                        OpenToken(read, mac, key, r.value, UnixSeconds(later)) == Err(InvalidToken))
      ensures r.Ok? ==> key != [] && channel in CHANNELS && ProfileKey(id) in accounts.client.table
      ensures key != [] && channel !in CHANNELS ==> r == Err(InvalidChannel)
      ensures key != [] && channel in CHANNELS && r == Err(NotFound) ==> ProfileKey(id) !in accounts.client.table
      ensures r.Err? ==> r.error in {Internal, InvalidChannel, NotFound}
      ensures accounts.client.healthy && key != [] && channel in CHANNELS ==>
                (r.Ok? <==> ProfileKey(id) in accounts.client.table)
    {
      hide OpenToken, CHANNELS, Marshal, Encode, AccountPK, UnixSeconds, Truncated;
      if |key| == 0 {
        return Err(Internal);
      }
      if channel !in CHANNELS {
        return Err(InvalidChannel);
      }
      var account := accounts.GetAccount(id);
      if account.Err? {
        return Err(account.error);
      }
      var p := Payload(id, channel, UnixSeconds(now + tokenTTL), freshId);
      var payload := Marshal(p);
      var sig := mac(key, payload);
      r := Ok(Encode(payload + sig));
      if freshId != "" {
        TruncatedKeeps(freshId);
        forall at: int
          ensures OpenToken(read, mac, key, r.value, at) ==
                    if at <= p.exp then Ok(p.(jti := Truncated(freshId))) else Err(InvalidToken)
        {
          MintedTokenOpens(read, mac, key, p, at);
        }
        forall later: nat
          ensures later <= now + tokenTTL ==> UnixSeconds(later) <= p.exp
          ensures later >= now + tokenTTL + NANOS ==> UnixSeconds(later) > p.exp
        {
          UnixSecondsCount(later, now + tokenTTL);
          UnixSecondsCount(now + tokenTTL, later);
          UnixSecondsCount(now + tokenTTL + NANOS, later);
        }
      }
    }

    /** Opens the token at `openedAt` and records the opt-out at `recordedAt`, unless the latest
        entry of the channel already stems from this token. */
    method VerifyAndRecordUnsubscribe(
      token: string, ipAddr: string, userAgent: string, openedAt: nat, recordedAt: nat) returns (s: Status)
      modifies consents.client`table
      ensures var outcome, t := OpenToken(read, mac, key, token, UnixSeconds(openedAt)), old(consents.client.table);
        && (outcome.Err? ==> s == Failed(outcome.error))
        && (s.Failed? ==> consents.client.table == t)
        && (s.Done? && WellKeyed(t) ==>
              var p := outcome.value;
              Presents(t, Presentation(p.accountId, OptOut(p, ipAddr, userAgent), recordedAt), consents.client.table))
        && (s.Done? && WellKeyed(t) && InRange(recordedAt) && NotPresentedLast(t, outcome.value) ==>
              var p, t' := outcome.value, consents.client.table;
              && Logged(t', p.accountId, p.channel, recordedAt)
              && ShowsOptOut(ToLog(t'[ConsentKey(p.accountId, p.channel, recordedAt)]),
                             p, ipAddr, userAgent, recordedAt)
              && (Before(t, recordedAt) ==> Latest(t', p.accountId, p.channel, recordedAt)))
        && (consents.client.healthy && outcome.Ok? ==>
              s.Done? || ConsentKey(outcome.value.accountId, outcome.value.channel, recordedAt) in t)
    {
      hide Decode, ParseUnsubToken, CHANNELS, WellKeyed, ConsentKey, ConsentRow, ToLog, InRange, StrAttr,
           ShowsOptOut, NotPresentedLast, Before;
      if |key| == 0 {
        return Failed(Internal);
      }
      var raw := Decode(token);
      if raw.None? || |raw.value| < DIGEST_SIZE {
        return Failed(InvalidToken);
      }
      var payload, sig := raw.value[..|raw.value| - DIGEST_SIZE], raw.value[|raw.value| - DIGEST_SIZE..];
      if mac(key, payload) != sig {
        return Failed(InvalidToken);
      }
      var outcome := ParseUnsubToken(read, payload, UnixSeconds(openedAt));
      if outcome.Err? {
        return Failed(outcome.error);
      }
      var p := outcome.value;
      OpenedIsValid(read, payload, UnixSeconds(openedAt));
      var entry := OptOut(p, ipAddr, userAgent);
      var existing := consents.GetLatestConsent(p.accountId, p.channel);
      if existing.Err? {
        return Failed(Internal);
      }
      ghost var t := consents.client.table;
      if WellKeyed(t) {
        ReplayKnown(t, Presentation(p.accountId, entry, recordedAt), existing.value);
      }
      if existing.value.Some? && existing.value.value.entry.sourceRef == Some(p.jti) {
        OptOutIsLatest(t, p, ipAddr, userAgent, recordedAt, t);
        return Done;
      }
      s := consents.AppendConsentLog(p.accountId, entry, None, recordedAt);
      OptOutIsLatest(t, p, ipAddr, userAgent, recordedAt, consents.client.table);
    }
  }

  lemma OpenedIsValid(read: Reader, payload: seq<Byte>, unixNow: int)
    requires ParseUnsubToken(read, payload, unixNow).Ok?
    ensures var p := ParseUnsubToken(read, payload, unixNow).value; '#' !in p.channel && p.jti != ""
  {
    ChannelsHaveNoHash(ParseUnsubToken(read, payload, unixNow).value.channel);
  }

  /** The latest entry decides whether the presentation is a replay. */
  lemma ReplayKnown(t: Table, p: Presentation, latest: Option<ConsentLog>)
    requires latest.None? ==> NothingLogged(t, p.id, p.entry.channel)
    requires latest.Some? ==>
               exists at :: Latest(t, p.id, p.entry.channel, at)
                         && latest.value == ToLog(t[ConsentKey(p.id, p.entry.channel, at)])
    ensures Replayed(t, p) <==> latest.Some? && latest.value.entry.sourceRef == p.entry.sourceRef
  {
    hide InRange, ConsentKey, StrAttr, ParseInstant;
  }
}
