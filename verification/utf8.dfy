/** UTF-8 (RFC 3629), in which JSON texts are signed. */
module Utf8 {
  import opened Basics
  import opened Base64Url

  function Code(c: char): nat {
    c as int
  }

  function Tail(n: nat): Byte {
    128 + n % 64
  }

  function EncodeChar(c: char): seq<Byte> {
    var n := Code(c);
    if n < 0x80 then [n]
    else if n < 0x800 then [192 + n / 64, Tail(n)]
    else if n < 0x1_0000 then [224 + n / 4096, Tail(n / 64), Tail(n)]
    else [240 + n / 262_144, Tail(n / 4096), Tail(n / 64), Tail(n)]
  }

  function Encode(s: string): seq<Byte> {
    if s == "" then [] else EncodeChar(s[0]) + Encode(s[1..])
  }

  predicate IsTail(b: Byte) {
    128 <= b < 192
  }

  /** The length of the encoding its first byte announces; 0 if it can be no first byte. */
  function Length(b: Byte): nat {
    if b < 128 then 1 else if 192 <= b < 224 then 2 else if 224 <= b < 240 then 3 else if 240 <= b < 248 then 4 else 0
  }

  function Part(b: Byte, mark: int): int {
    b - mark
  }

  /** The code a whole encoding stands for. */
  function CodeOf(b: seq<Byte>): int
    requires 1 <= |b| <= 4
  {
    if |b| == 1 then b[0]
    else if |b| == 2 then Part(b[0], 192) * 64 + Part(b[1], 128)
    else if |b| == 3 then Part(b[0], 224) * 4096 + Part(b[1], 128) * 64 + Part(b[2], 128)
    else Part(b[0], 240) * 262_144 + Part(b[1], 128) * 4096 + Part(b[2], 128) * 64 + Part(b[3], 128)
  }

  /** Codes that are characters and need this many bytes: no surrogates, no overlong forms. */
  predicate IsCode(n: int, length: nat) {
    && (0 <= n < 0xD800 || 0xE000 <= n < 0x11_0000)
    && length == (if n < 0x80 then 1 else if n < 0x800 then 2 else if n < 0x1_0000 then 3 else 4)
  }

  function Decode(b: seq<Byte>): Option<string> {
    if b == [] then Some("")
    else
      var length := Length(b[0]);
      if || length == 0 || |b| < length || !(forall i | 1 <= i < length :: IsTail(b[i]))
         || !IsCode(CodeOf(b[..length]), length)
      then None
      else
        var rest := Decode(b[length..]);
        if rest.None? then None else Some([CodeOf(b[..length]) as char] + rest.value)
  }

  lemma SplitCode(n: nat)
    ensures n == n / 64 * 64 + n % 64
    ensures n / 64 == n / 4096 * 64 + n / 64 % 64
    ensures n / 4096 == n / 262_144 * 64 + n / 4096 % 64
  {
    assert n / 4096 == n / 64 / 64;
    assert n / 262_144 == n / 4096 / 64;
  }

  /** A character's encoding has the length its first byte announces and stands for its code. */
  lemma CharRoundTrip(c: char)
    ensures var b := EncodeChar(c);
      && 1 <= |b| <= 4 && Length(b[0]) == |b| && (forall i | 1 <= i < |b| :: IsTail(b[i]))
      && CodeOf(b) == c as int && IsCode(c as int, |b|)
  {
    SplitCode(Code(c));
  }

  lemma {:induction false} RoundTrip(s: string)
    ensures Decode(Encode(s)) == Some(s)
  {
    if s != "" {
      hide EncodeChar, CodeOf, Length, IsTail, IsCode;
      var first, rest := EncodeChar(s[0]), Encode(s[1..]);
      RoundTrip(s[1..]);
      CharRoundTrip(s[0]);
      var b := first + rest;
      assert b[0] == first[0] && b[..|first|] == first && b[|first|..] == rest;
      assert forall i | 1 <= i < |first| :: IsTail(b[i]) by {
        assert forall i | 1 <= i < |first| :: b[i] == first[i];
      }
      assert s == [s[0]] + s[1..];
    }
  }
}
