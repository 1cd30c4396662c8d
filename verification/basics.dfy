/** Small vocabulary shared by every module: optional values, results, and the string
    operations the service applies to emails, keys and tags. */
module Basics {
  datatype Option<+T> = None | Some(value: T)

  /** The sentinel errors a caller can tell apart; `Internal` is every other failure. */
  datatype Error =
    | NotFound
    | AlreadyExists
    | EmailAlreadyExists
    | InvalidInput
    | VersionConflict
    | ForbiddenNamespace
    | SignCountRegression
    | InvalidToken
    | InvalidChannel
    | Internal

  datatype Result<+T> = Ok(value: T) | Err(error: Error)

  /** The outcome of an operation that returns nothing but an error. */
  datatype Status = Done | Failed(error: Error)

  function LowerChar(c: char): char {
    if 'A' <= c <= 'Z' then (c as int + 32) as char else c
  }

  function Lower(s: string): (r: string)
    ensures |r| == |s|
    ensures forall i :: 0 <= i < |s| ==> r[i] == LowerChar(s[i])
  {
    seq(|s|, i requires 0 <= i < |s| => LowerChar(s[i]))
  }

  lemma LowerIdempotent(s: string)
    ensures Lower(Lower(s)) == Lower(s)
  {
  }

  /** Texts that differ in nothing but the case of Latin letters. */
  ghost predicate SameButCase(s: string, t: string) {
    && |s| == |t|
    && forall i :: 0 <= i < |s| ==>
         || s[i] == t[i]
         || ('A' <= s[i] <= 'Z' && t[i] as int == s[i] as int + 32)
         || ('A' <= t[i] <= 'Z' && s[i] as int == t[i] as int + 32)
  }

  lemma LowerAgrees(s: string, t: string)
    ensures Lower(s) == Lower(t) <==> SameButCase(s, t)
  {
    if |s| == |t| && (Lower(s) == Lower(t) || SameButCase(s, t)) {
      forall i | 0 <= i < |s| ensures Lower(s)[i] == LowerChar(s[i]) && Lower(t)[i] == LowerChar(t[i]) {
      }
    }
  }

  predicate IsSpace(c: char) {
    c in " \t\n\r" || c == 11 as char || c == 12 as char
  }

  function TrimLeft(s: string): (r: string)
    ensures |r| <= |s|
  {
    if s != "" && IsSpace(s[0]) then TrimLeft(s[1..]) else s
  }

  function TrimRight(s: string): (r: string)
    ensures |r| <= |s|
  {
    if s != "" && IsSpace(s[|s| - 1]) then TrimRight(s[..|s| - 1]) else s
  }

  function TrimSpace(s: string): (r: string)
    ensures |r| <= |s|
  {
    TrimRight(TrimLeft(s))
  }

  /** `s` neither begins nor ends with a blank. */
  predicate Trimmed(s: string) {
    s != "" ==>
      && s[0] !in [' ', '\t', '\n', '\r', 11 as char, 12 as char]
      && s[|s| - 1] !in [' ', '\t', '\n', '\r', 11 as char, 12 as char]
  }

  /** Trimming cuts away blanks at both ends, and all of them: nothing else goes, and what is left
      begins and ends with none. Blanks are space, tab, line feed, carriage return, vertical tab
      and form feed. */
  lemma TrimSpaceCuts(s: string) returns (a: string, b: string)
    ensures s == a + TrimSpace(s) + b
    ensures forall c | c in a || c in b :: c in [' ', '\t', '\n', '\r', 11 as char, 12 as char]
    ensures Trimmed(TrimSpace(s))
  {
    hide TrimLeft, TrimRight, IsSpace;
    a := TrimLeftCuts(s);
    b := TrimRightCuts(TrimLeft(s));
    assert forall c: char :: IsSpace(c) <==> c in [' ', '\t', '\n', '\r', 11 as char, 12 as char] by {
      forall c: char ensures IsSpace(c) <==> c in [' ', '\t', '\n', '\r', 11 as char, 12 as char] {
        SixBlanks(c);
      }
    }
    if TrimSpace(s) != "" {
      assert TrimLeft(s)[0] == TrimSpace(s)[0];
    }
  }

  lemma SixBlanks(c: char)
    ensures IsSpace(c) <==> c in [' ', '\t', '\n', '\r', 11 as char, 12 as char]
  {
  }

  lemma {:induction false} TrimLeftCuts(s: string) returns (a: string)
    ensures s == a + TrimLeft(s) && forall c | c in a :: IsSpace(c)
    ensures TrimLeft(s) != "" ==> !IsSpace(TrimLeft(s)[0])
  {
    a := "";
    if s != "" && IsSpace(s[0]) {
      a := TrimLeftCuts(s[1..]);
      a := [s[0]] + a;
    }
  }

  lemma {:induction false} TrimRightCuts(s: string) returns (b: string)
    ensures s == TrimRight(s) + b && forall c | c in b :: IsSpace(c)
    ensures TrimRight(s) != "" ==> !IsSpace(TrimRight(s)[|TrimRight(s)| - 1])
  {
    b := "";
    if s != "" && IsSpace(s[|s| - 1]) {
      b := TrimRightCuts(s[..|s| - 1]);
      b := b + [s[|s| - 1]];
    }
  }

  /** So trimming keeps exactly the texts without blanks at the ends as they are. */
  lemma TrimSpaceKeeps(s: string)
    ensures TrimSpace(s) == s <==> Trimmed(s)
  {
    var a, b := TrimSpaceCuts(s);
    if a != "" {
      assert s[0] == a[0];
    } else if b != "" {
      assert s[|s| - 1] == b[|b| - 1];
    }
  }

  function OrEmpty(s: Option<string>): string {
    if s.Some? then s.value else ""
  }

  /** An empty string is reported as absent. */
  function OptStr(s: string): Option<string> {
    if s == "" then None else Some(s)
  }

  /** Everything a sequence lists, as a set. */
  function SetOf<T(==)>(s: seq<T>): set<T> {
    set x | x in s
  }

  lemma SetOfAppend<T>(s: seq<T>, x: T)
    ensures SetOf(s + [x]) == SetOf(s) + {x}
  {
  }

  ghost predicate Distinct<T>(s: seq<T>) {
    forall i, j :: 0 <= i < j < |s| ==> s[i] != s[j]
  }

  lemma {:induction false} DistinctSize<T>(s: seq<T>)
    requires Distinct(s)
    ensures |SetOf(s)| == |s|
  {
    if s != [] {
      var front := s[..|s| - 1];
      DistinctSize(front);
      assert s[|s| - 1] !in front;
      forall x ensures x in SetOf(s) <==> x in SetOf(front) + {s[|s| - 1]} {
        assert s == front + [s[|s| - 1]];
      }
      assert SetOf(s) == SetOf(front) + {s[|s| - 1]};
    }
  }

  /** A prefix put before two strings cancels, and different first letters keep apart. */
  lemma PrefixCancels(p: string, a: string, b: string)
    ensures p + a == p + b <==> a == b
  {
    assert (p + a)[|p|..] == a;
    assert (p + b)[|p|..] == b;
  }

  // ---------- byte-wise order of strings ----------

  predicate LexLess(a: string, b: string) {
    b != "" && (a == "" || a[0] < b[0] || (a[0] == b[0] && LexLess(a[1..], b[1..])))
  }

  /** Strings of one length decide the order before what follows them does. */
  lemma {:induction false} LexConcat(a: string, b: string, x: string, y: string)
    requires |a| == |b|
    ensures LexLess(a + x, b + y) <==> LexLess(a, b) || (a == b && LexLess(x, y))
  {
    if a == "" {
      assert a + x == x && b + y == y;
    } else {
      assert (a + x)[1..] == a[1..] + x && (b + y)[1..] == b[1..] + y;
      LexConcat(a[1..], b[1..], x, y);
      assert a == b <==> a[0] == b[0] && a[1..] == b[1..];
    }
  }

  lemma {:induction false} LexIrreflexive(a: string)
    ensures !LexLess(a, a)
  {
    if a != "" {
      LexIrreflexive(a[1..]);
    }
  }

  /** A common beginning does not matter. */
  lemma LexCancels(p: string, a: string, b: string)
    ensures LexLess(p + a, p + b) <==> LexLess(a, b)
  {
    LexConcat(p, p, a, b);
    LexIrreflexive(p);
  }

  /** The order is total, so among finitely many keys there is a greatest. */
  lemma {:induction false} LexTotal(a: string, b: string)
    ensures LexLess(a, b) || LexLess(b, a) || a == b
  {
    if a != "" && b != "" {
      LexTotal(a[1..], b[1..]);
      assert a == [a[0]] + a[1..] && b == [b[0]] + b[1..];
    }
  }

  lemma {:induction false} LexTransitive(a: string, b: string, c: string)
    requires LexLess(a, b) && LexLess(b, c)
    ensures LexLess(a, c)
  {
    if a != "" && a[0] == b[0] == c[0] {
      LexTransitive(a[1..], b[1..], c[1..]);
    }
  }
}
