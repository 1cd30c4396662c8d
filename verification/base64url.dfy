/** base64url without padding, section 5 of RFC 4648, as the token codec uses it. The decoder
    skips line breaks and ignores unused trailing bits, as Go's non-strict decoder does. */
module Base64Url {
  import opened Basics

  type Byte = n: nat | n < 256

  type Sextet = n: nat | n < 64

  function Letter(v: Sextet): (c: char)
    ensures !IsBreak(c)
  {
    if v < 26 then ('A' as int + v) as char
    else if v < 52 then ('a' as int + v - 26) as char
    else if v < 62 then ('0' as int + v - 52) as char
    else if v == 62 then '-'
    else '_'
  }

  function Value(c: char): Option<Sextet> {
    if 'A' <= c <= 'Z' then Some(c as int - 'A' as int)
    else if 'a' <= c <= 'z' then Some(c as int - 'a' as int + 26)
    else if '0' <= c <= '9' then Some(c as int - '0' as int + 52)
    else if c == '-' then Some(62)
    else if c == '_' then Some(63)
    else None
  }

  lemma LetterShowsValue(v: Sextet)
    ensures Value(Letter(v)) == Some(v)
  {
  }

  predicate IsBreak(c: char) {
    c == '\r' || c == '\n'
  }

  // ---------- bytes and sextets ----------

  /** The four sextets of three bytes; missing bytes count as zero. */
  function Sextet1(x: Byte): Sextet {
    x / 4
  }

  function Sextet2(x: Byte, y: Byte): Sextet {
    x % 4 * 16 + y / 16
  }

  function Sextet3(y: Byte, z: Byte): Sextet {
    y % 16 * 4 + z / 64
  }

  function Sextet4(z: Byte): Sextet {
    z % 64
  }

  function ToSextets(b: seq<Byte>): seq<Sextet> {
    if |b| == 0 then []
    else if |b| == 1 then [Sextet1(b[0]), Sextet2(b[0], 0)]
    else if |b| == 2 then [Sextet1(b[0]), Sextet2(b[0], b[1]), Sextet3(b[1], 0)]
    else [Sextet1(b[0]), Sextet2(b[0], b[1]), Sextet3(b[1], b[2]), Sextet4(b[2])] + ToSextets(b[3..])
  }

  function First(p: Sextet, q: Sextet): Byte {
    p * 4 + q / 16
  }

  function Second(q: Sextet, r: Sextet): Byte {
    q % 16 * 16 + r / 4
  }

  function Third(r: Sextet, t: Sextet): Byte {
    r % 4 * 64 + t
  }

  /** A single leftover sextet is corrupt input. */
  function FromSextets(s: seq<Sextet>): Option<seq<Byte>> {
    if |s| == 0 then Some([])
    else if |s| == 1 then None
    else if |s| == 2 then Some([First(s[0], s[1])])
    else if |s| == 3 then Some([First(s[0], s[1]), Second(s[1], s[2])])
    else
      var rest := FromSextets(s[4..]);
      if rest.None? then None
      else Some([First(s[0], s[1]), Second(s[1], s[2]), Third(s[2], s[3])] + rest.value)
  }

  lemma FirstUnpacks(x: Byte, y: Byte)
    ensures First(Sextet1(x), Sextet2(x, y)) == x
  {
  }

  lemma SecondUnpacks(x: Byte, y: Byte, z: Byte)
    ensures Second(Sextet2(x, y), Sextet3(y, z)) == y
  {
    var low := x % 4;
    assert (low * 16 + y / 16) % 16 == y / 16;
    assert (y % 16 * 4 + z / 64) / 4 == y % 16;
  }

  lemma ThirdUnpacks(y: Byte, z: Byte)
    ensures Third(Sextet3(y, z), Sextet4(z)) == z
  {
    var low := y % 16;
    assert (low * 4 + z / 64) % 4 == z / 64;
  }

  lemma {:induction false} SextetsRoundTrip(b: seq<Byte>)
    ensures FromSextets(ToSextets(b)) == Some(b)
  {
    hide First, Second, Third, Sextet1, Sextet2, Sextet3, Sextet4;
    if |b| == 1 {
      FirstUnpacks(b[0], 0);
      assert b == [b[0]];
    } else if |b| == 2 {
      FirstUnpacks(b[0], b[1]);
      SecondUnpacks(b[0], b[1], 0);
      assert b == [b[0], b[1]];
    } else if |b| > 2 {
      SextetsRoundTrip(b[3..]);
      FirstUnpacks(b[0], b[1]);
      SecondUnpacks(b[0], b[1], b[2]);
      ThirdUnpacks(b[1], b[2]);
      assert ToSextets(b)[4..] == ToSextets(b[3..]);
      assert b == [b[0], b[1], b[2]] + b[3..];
    }
  }

  // ---------- text ----------

  function Letters(s: seq<Sextet>): string {
    if s == [] then "" else [Letter(s[0])] + Letters(s[1..])
  }

  function Values(text: string): Option<seq<Sextet>> {
    if text == "" then Some([])
    else
      var rest := Values(text[1..]);
      if IsBreak(text[0]) then rest
      else
        var v := Value(text[0]);
        if v.None? || rest.None? then None else Some([v.value] + rest.value)
  }

  lemma {:induction false} LettersRoundTrip(s: seq<Sextet>)
    ensures Values(Letters(s)) == Some(s)
  {
    if s != [] {
      LettersRoundTrip(s[1..]);
      LetterShowsValue(s[0]);
      assert Letters(s)[1..] == Letters(s[1..]);
      assert s == [s[0]] + s[1..];
    }
  }

  function Encode(b: seq<Byte>): string {
    Letters(ToSextets(b))
  }

  function Decode(text: string): Option<seq<Byte>> {
    var values := Values(text);
    if values.None? then None else FromSextets(values.value)
  }

  /** The text is safe in a URL as it stands, and unpadded: four characters for three bytes. */
  lemma EncodeIsUrlSafe(b: seq<Byte>)
    ensures forall c | c in Encode(b) ::
              'A' <= c <= 'Z' || 'a' <= c <= 'z' || '0' <= c <= '9' || c == '-' || c == '_'
    ensures |Encode(b)| == (4 * |b| + 2) / 3
  {
    SextetsCount(b);
    LettersAreSafe(ToSextets(b));
  }

  lemma {:induction false} SextetsCount(b: seq<Byte>)
    ensures |ToSextets(b)| == (4 * |b| + 2) / 3
  {
    if |b| > 2 {
      SextetsCount(b[3..]);
    }
  }

  lemma {:induction false} LettersAreSafe(s: seq<Sextet>)
    ensures |Letters(s)| == |s|
    ensures forall c | c in Letters(s) ::
              'A' <= c <= 'Z' || 'a' <= c <= 'z' || '0' <= c <= '9' || c == '-' || c == '_'
  {
    if s != [] {
      LettersAreSafe(s[1..]);
    }
  }

  /** Decoding an encoded byte string gives it back. */
  lemma RoundTrip(b: seq<Byte>)
    ensures Decode(Encode(b)) == Some(b)
  {
    LettersRoundTrip(ToSextets(b));
    SextetsRoundTrip(b);
  }
}
