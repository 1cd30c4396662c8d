/** Instants of the years 0 to 9999 in UTC and their fixed-width rendering, as the consent
    keys use it (internal/db/consent.go). An instant counts the nanoseconds since the year 0. */
module Instants {
  import opened Basics

  // ---------- zero-padded numbers ----------

  function Digit(d: nat): char
    requires d < 10
  {
    ('0' as int + d) as char
  }

  function Pow10(w: nat): nat {
    if w == 0 then 1 else 10 * Pow10(w - 1)
  }

  function Pad(n: nat, w: nat): (s: string)
    ensures |s| == w
  {
    if w == 0 then "" else Pad(n / 10, w - 1) + [Digit(n % 10)]
  }

  lemma {:induction false} PadOrder(n: nat, m: nat, w: nat)
    requires n < Pow10(w) && m < Pow10(w)
    ensures LexLess(Pad(n, w), Pad(m, w)) <==> n < m
    ensures Pad(n, w) == Pad(m, w) <==> n == m
  {
    if w > 0 {
      PadOrder(n / 10, m / 10, w - 1);
      var x, y := [Digit(n % 10)], [Digit(m % 10)];
      LexConcat(Pad(n / 10, w - 1), Pad(m / 10, w - 1), x, y);
      assert LexLess(x, y) <==> x[0] < y[0];
      assert Pad(n, w)[..w - 1] == Pad(n / 10, w - 1) && Pad(m, w)[..w - 1] == Pad(m / 10, w - 1);
      assert Pad(n, w)[w - 1] == x[0] && Pad(m, w)[w - 1] == y[0];
    }
  }

  function DigitValue(c: char): nat {
    if '0' <= c <= '9' then c as int - '0' as int else 0
  }

  function ParseNat(s: string): nat {
    if s == "" then 0 else ParseNat(s[..|s| - 1]) * 10 + DigitValue(s[|s| - 1])
  }

  lemma {:induction false} PadParses(n: nat, w: nat)
    requires n < Pow10(w)
    ensures ParseNat(Pad(n, w)) == n
  {
    if w > 0 {
      PadParses(n / 10, w - 1);
      assert Pad(n, w)[..w - 1] == Pad(n / 10, w - 1);
    }
  }

  // ---------- a layout of padded numbers and separators ----------

  datatype Slot = Slot(width: nat, separator: string)

  function Render(layout: seq<Slot>, values: seq<nat>): string
    requires |layout| == |values|
  {
    if layout == [] then ""
    else Pad(values[0], layout[0].width) + (layout[0].separator + Render(layout[1..], values[1..]))
  }

  ghost predicate Fits(layout: seq<Slot>, values: seq<nat>) {
    |layout| == |values| && forall i | 0 <= i < |layout| :: values[i] < Pow10(layout[i].width)
  }

  predicate SeqLess(a: seq<nat>, b: seq<nat>)
    requires |a| == |b|
  {
    a != [] && (a[0] < b[0] || (a[0] == b[0] && SeqLess(a[1..], b[1..])))
  }

  /** Rendered into one layout, values compare byte-wise as they compare field by field. */
  lemma {:induction false} RenderOrder(layout: seq<Slot>, a: seq<nat>, b: seq<nat>)
    requires Fits(layout, a) && Fits(layout, b)
    ensures LexLess(Render(layout, a), Render(layout, b)) <==> SeqLess(a, b)
    ensures Render(layout, a) == Render(layout, b) <==> a == b
  {
    if layout != [] {
      var w, sep := layout[0].width, layout[0].separator;
      var x, y := Render(layout[1..], a[1..]), Render(layout[1..], b[1..]);
      var p, q := Pad(a[0], w), Pad(b[0], w);
      RenderOrder(layout[1..], a[1..], b[1..]);
      PadOrder(a[0], b[0], w);
      LexConcat(p, q, sep + x, sep + y);
      LexCancels(sep, x, y);
      PrefixCancels(sep, x, y);
      assert (p + (sep + x))[..w] == p && (q + (sep + y))[..w] == q;
      assert (p + (sep + x))[w..] == sep + x && (q + (sep + y))[w..] == sep + y;
      assert a == b <==> a[0] == b[0] && a[1..] == b[1..];
    }
  }

  /** The numbers in a rendered text; too short a text gives fewer. */
  function Unrender(layout: seq<Slot>, s: string): seq<nat> {
    if layout == [] then []
    else
      var w, next := layout[0].width, layout[0].width + |layout[0].separator|;
      if |s| < next then [] else [ParseNat(s[..w])] + Unrender(layout[1..], s[next..])
  }

  lemma {:induction false} RenderParses(layout: seq<Slot>, values: seq<nat>)
    requires Fits(layout, values)
    ensures Unrender(layout, Render(layout, values)) == values
  {
    if layout != [] {
      hide Unrender, Pad, ParseNat, Pow10;
      RenderParses(layout[1..], values[1..]);
      PadParses(values[0], layout[0].width);
      UnrenderStep(layout, Pad(values[0], layout[0].width), Render(layout[1..], values[1..]));
      assert values == [values[0]] + values[1..];
    }
  }

  lemma UnrenderStep(layout: seq<Slot>, first: string, rest: string)
    requires layout != [] && |first| == layout[0].width
    ensures Unrender(layout, first + (layout[0].separator + rest)) == [ParseNat(first)] + Unrender(layout[1..], rest)
  {
    hide ParseNat;
    var s, next := first + (layout[0].separator + rest), |first| + |layout[0].separator|;
    assert s[..|first|] == first && s[next..] == rest;
  }

  // ---------- the calendar ----------

  predicate IsLeap(y: nat) {
    y % 4 == 0 && (y % 100 != 0 || y % 400 == 0)
  }

  function DaysInYear(y: nat): nat {
    if IsLeap(y) then 366 else 365
  }

  function DaysInMonth(y: nat, m: nat): nat {
    if m == 2 then (if IsLeap(y) then 29 else 28)
    else if m in {4, 6, 9, 11} then 30
    else 31
  }

  function DaysBeforeYear(y: nat): nat {
    if y == 0 then 0 else DaysBeforeYear(y - 1) + DaysInYear(y - 1)
  }

  function DaysBeforeMonth(y: nat, m: nat): nat {
    if m <= 1 then 0 else DaysBeforeMonth(y, m - 1) + DaysInMonth(y, m - 1)
  }

  /** The leap-year rule in closed form. */
  lemma {:induction false} DaysBeforeYearCloses(y: nat)
    ensures DaysBeforeYear(y) == 365 * y + (y + 3) / 4 - (y + 99) / 100 + (y + 399) / 400
  {
    hide DaysBeforeYear;
    LeapYearsCount(y);
  }

  /** The leap years before a year. */
  function LeapYears(y: nat): int {
    (y + 3) / 4 - (y + 99) / 100 + (y + 399) / 400
  }

  lemma LeapYearsStep(z: nat)
    ensures LeapYears(z + 1) == LeapYears(z) + DaysInYear(z) - 365
  {
    hide DaysInYear;
    Crossed(z, 4);
    Crossed(z, 100);
    Crossed(z, 400);
    LeapDays(z);
  }

  lemma {:induction false} LeapYearsCount(y: nat)
    ensures DaysBeforeYear(y) == 365 * y + LeapYears(y)
  {
    if y > 0 {
      hide LeapYears, DaysInYear;
      LeapYearsCount(y - 1);
      LeapYearsStep(y - 1);
    }
  }

  lemma LeapDays(z: nat)
    ensures DaysInYear(z) == 365 + (if z % 4 == 0 then 1 else 0) - (if z % 100 == 0 then 1 else 0)
                             + (if z % 400 == 0 then 1 else 0)
  {
    MultipleOf(z);
  }

  lemma Crossed(z: nat, k: nat)
    requires k in {4, 100, 400}
    ensures (z + k) / k == (z + k - 1) / k + if z % k == 0 then 1 else 0
  {
  }

  lemma MultipleOf(z: nat)
    ensures z % 400 == 0 ==> z % 100 == 0
    ensures z % 100 == 0 ==> z % 4 == 0
  {
    if z % 100 == 0 {
      var q := z / 100;
      assert z == 4 * (25 * q);
      Multiples(25 * q);
    }
    if z % 400 == 0 {
      var q := z / 400;
      assert z == 100 * (4 * q);
      Multiples(4 * q);
    }
  }

  lemma Multiples(q: nat)
    ensures (4 * q) % 4 == 0
    ensures (100 * q) % 100 == 0
  {
  }

  lemma {:induction false} YearsGrow(a: nat, b: nat)
    requires a < b
    ensures DaysBeforeYear(a) + DaysInYear(a) <= DaysBeforeYear(b)
  {
    if a + 1 < b {
      YearsGrow(a, b - 1);
    }
  }

  lemma {:induction false} MonthsGrow(y: nat, a: nat, b: nat)
    requires 1 <= a < b
    ensures DaysBeforeMonth(y, a) + DaysInMonth(y, a) <= DaysBeforeMonth(y, b)
  {
    if a + 1 < b {
      MonthsGrow(y, a, b - 1);
    }
  }

  lemma TwelveMonths(y: nat)
    ensures DaysBeforeMonth(y, 13) == DaysInYear(y)
  {
    assert DaysBeforeMonth(y, 2) == DaysBeforeMonth(y, 1) + 31 == 31;
    assert DaysBeforeMonth(y, 4) == DaysBeforeMonth(y, 3) + 31 == 62 + DaysInMonth(y, 2);
    assert DaysBeforeMonth(y, 6) == DaysBeforeMonth(y, 5) + 31 == DaysBeforeMonth(y, 4) + 61;
    assert DaysBeforeMonth(y, 8) == DaysBeforeMonth(y, 7) + 31 == DaysBeforeMonth(y, 6) + 61;
    assert DaysBeforeMonth(y, 10) == DaysBeforeMonth(y, 9) + 30 == DaysBeforeMonth(y, 8) + 61;
    assert DaysBeforeMonth(y, 12) == DaysBeforeMonth(y, 11) + 30 == DaysBeforeMonth(y, 10) + 61;
  }

  datatype Civil = Civil(year: nat, month: nat, day: nat, hour: nat, minute: nat, second: nat, nano: nat)

  ghost predicate IsCivil(c: Civil) {
    && c.year < 10_000 && 1 <= c.month <= 12 && 1 <= c.day <= DaysInMonth(c.year, c.month)
    && c.hour < 24 && c.minute < 60 && c.second < 60 && c.nano < NANOS
  }

  const NANOS := 1_000_000_000
  const DAY := 86_400 * NANOS

  function DayNumber(c: Civil): nat {
    DaysBeforeYear(c.year) + DaysBeforeMonth(c.year, c.month) + if c.day == 0 then 0 else c.day - 1
  }

  /** The instant a civil time names. */
  function At(c: Civil): nat {
    DayNumber(c) * DAY + ((c.hour * 60 + c.minute) * 60 + c.second) * NANOS + c.nano
  }

  function YearAndDay(days: nat, y: nat): (r: (nat, nat))
    ensures y <= r.0 && r.1 < DaysInYear(r.0) && DaysBeforeYear(r.0) + r.1 == DaysBeforeYear(y) + days
    decreases days
  {
    if days < DaysInYear(y) then (y, days) else YearAndDay(days - DaysInYear(y), y + 1)
  }

  function MonthAndDay(y: nat, days: nat, m: nat): (r: (nat, nat))
    requires 1 <= m && DaysBeforeMonth(y, m) + days < DaysBeforeMonth(y, 13) && m <= 12
    ensures 1 <= r.0 <= 12 && r.1 < DaysInMonth(y, r.0)
    ensures DaysBeforeMonth(y, r.0) + r.1 == DaysBeforeMonth(y, m) + days
    decreases 12 - m
  {
    if days < DaysInMonth(y, m) then (m, days)
    else
      assert DaysBeforeMonth(y, m + 1) == DaysBeforeMonth(y, m) + DaysInMonth(y, m);
      MonthAndDay(y, days - DaysInMonth(y, m), m + 1)
  }

  /** The civil time of an instant. */
  function ToCivil(at: nat): Civil {
    var (year, yearDay) := YearAndDay(at / DAY, 0);
    TwelveMonths(year);
    var (month, monthDay) := MonthAndDay(year, yearDay, 1);
    var rest := at % DAY;
    var seconds := rest / NANOS;
    Civil(year, month, monthDay + 1, seconds / 3600, seconds / 60 % 60, seconds % 60, rest % NANOS)
  }

  ghost predicate InRange(at: nat) {
    at / DAY < DaysBeforeYear(10_000)
  }

  /** Every instant of the years 0 to 9999 has a civil time that names it. */
  lemma CivilRoundTrip(at: nat)
    requires InRange(at)
    ensures IsCivil(ToCivil(at)) && At(ToCivil(at)) == at
  {
    hide DaysBeforeYear, DaysBeforeMonth, DaysInMonth, DaysInYear;
    var c := ToCivil(at);
    NothingBefore(c.year);
    if c.year > 10_000 {
      YearsGrow(10_000, c.year);
    }
    TimeOfDay(at % DAY);
  }

  lemma NothingBefore(y: nat)
    ensures DaysBeforeYear(0) == 0 && DaysBeforeMonth(y, 1) == 0
  {
  }

  lemma TimeOfDay(rest: nat)
    requires rest < DAY
    ensures var s := rest / NANOS;
      && s / 3600 < 24
      && ((s / 3600 * 60 + s / 60 % 60) * 60 + s % 60) * NANOS + rest % NANOS == rest
  {
  }

  function Fields(c: Civil): seq<nat> {
    [c.year, c.month, c.day, c.hour, c.minute, c.second, c.nano]
  }

  lemma SeqLessCons(x: nat, xs: seq<nat>, y: nat, ys: seq<nat>)
    requires |xs| == |ys|
    ensures SeqLess([x] + xs, [y] + ys) <==> x < y || (x == y && SeqLess(xs, ys))
  {
  }

  lemma NothingLess()
    ensures !SeqLess([], [])
  {
  }

  predicate TimeLess(a: Civil, b: Civil) {
    || a.hour < b.hour
    || (a.hour == b.hour && (a.minute < b.minute
        || (a.minute == b.minute && (a.second < b.second || (a.second == b.second && a.nano < b.nano)))))
  }

  predicate DateLess(a: Civil, b: Civil) {
    a.year < b.year || (a.year == b.year && (a.month < b.month || (a.month == b.month && a.day < b.day)))
  }

  predicate SameDate(a: Civil, b: Civil) {
    a.year == b.year && a.month == b.month && a.day == b.day
  }

  function TimeFields(c: Civil): seq<nat> {
    [c.hour, c.minute, c.second, c.nano]
  }

  lemma TimeFieldsLess(a: Civil, b: Civil)
    ensures SeqLess(TimeFields(a), TimeFields(b)) <==> TimeLess(a, b)
  {
    hide SeqLess;
    NothingLess();
    SeqLessCons(a.nano, [], b.nano, []);
    assert [a.nano] == [a.nano] + [] && [b.nano] == [b.nano] + [];
    SeqLessCons(a.second, [a.nano], b.second, [b.nano]);
    SeqLessCons(a.minute, [a.second] + [a.nano], b.minute, [b.second] + [b.nano]);
    SeqLessCons(a.hour, [a.minute] + ([a.second] + [a.nano]), b.hour, [b.minute] + ([b.second] + [b.nano]));
    assert TimeFields(a) == [a.hour] + ([a.minute] + ([a.second] + [a.nano]));
    assert TimeFields(b) == [b.hour] + ([b.minute] + ([b.second] + [b.nano]));
  }

  lemma FieldsLess(a: Civil, b: Civil)
    ensures SeqLess(Fields(a), Fields(b)) <==> DateLess(a, b) || (SameDate(a, b) && TimeLess(a, b))
  {
    TimeFieldsLess(a, b);
    var s, t := TimeFields(a), TimeFields(b);
    assert Fields(a) == [a.year] + ([a.month] + ([a.day] + s)) && Fields(b) == [b.year] + ([b.month] + ([b.day] + t));
    hide SeqLess, TimeLess, TimeFields, Fields;
    SeqLessCons(a.day, s, b.day, t);
    SeqLessCons(a.month, [a.day] + s, b.month, [b.day] + t);
    SeqLessCons(a.year, [a.month] + ([a.day] + s), b.year, [b.month] + ([b.day] + t));
  }

  lemma DateOrder(a: Civil, b: Civil)
    requires IsCivil(a) && IsCivil(b)
    ensures DateLess(a, b) ==> DayNumber(a) < DayNumber(b)
    ensures SameDate(a, b) ==> DayNumber(a) == DayNumber(b)
  {
    DayInYear(a);
    DayInYear(b);
    hide DaysBeforeYear, DaysBeforeMonth, DaysInYear, DaysInMonth;
    if a.year < b.year {
      YearsGrow(a.year, b.year);
    } else if a.year == b.year && a.month < b.month {
      MonthsGrow(a.year, a.month, b.month);
    }
  }

  lemma DayInYear(c: Civil)
    requires IsCivil(c)
    ensures DaysBeforeMonth(c.year, c.month) + c.day <= DaysInYear(c.year)
  {
    TwelveMonths(c.year);
    MonthsGrow(c.year, c.month, 13);
  }

  function TimeNanos(c: Civil): nat {
    ((c.hour * 60 + c.minute) * 60 + c.second) * NANOS + c.nano
  }

  lemma TimeOrder(a: Civil, b: Civil)
    requires IsCivil(a) && IsCivil(b)
    ensures TimeNanos(a) < DAY && TimeNanos(b) < DAY
    ensures TimeLess(a, b) ==> TimeNanos(a) < TimeNanos(b)
  {
  }

  /** Field by field, civil times compare as the instants they name. */
  lemma CivilOrder(a: Civil, b: Civil)
    requires IsCivil(a) && IsCivil(b)
    ensures SeqLess(Fields(a), Fields(b)) ==> At(a) < At(b)
  {
    FieldsLess(a, b);
    DateOrder(a, b);
    TimeOrder(a, b);
    hide SeqLess, DateLess, TimeLess, SameDate, DayNumber, IsCivil;
    if DayNumber(a) < DayNumber(b) {
      assert DayNumber(a) * DAY + DAY <= DayNumber(b) * DAY;
    }
  }

  // ---------- the rendering ----------

  const LAYOUT: seq<Slot> := [
    Slot(4, "-"), Slot(2, "-"), Slot(2, "T"), Slot(2, ":"), Slot(2, ":"), Slot(2, "."), Slot(9, "Z")
  ]

  /** "2006-01-02T15:04:05.000000000Z" with all zeros kept. */
  function Format(at: nat): string {
    Render(LAYOUT, Fields(ToCivil(at)))
  }

  lemma CivilFits(c: Civil)
    requires IsCivil(c)
    ensures Fits(LAYOUT, Fields(c))
  {
  }

  lemma {:induction false} SeqLessTotal(a: seq<nat>, b: seq<nat>)
    requires |a| == |b|
    ensures SeqLess(a, b) || SeqLess(b, a) || a == b
  {
    if a != [] {
      SeqLessTotal(a[1..], b[1..]);
      assert a == b <==> a[0] == b[0] && a[1..] == b[1..];
    }
  }

  /** Rendered instants of the years 0 to 9999 compare byte-wise as in time, and no two are
      rendered alike. */
  lemma FormatOrder(a: nat, b: nat)
    requires InRange(a) && InRange(b)
    ensures LexLess(Format(a), Format(b)) <==> a < b
    ensures Format(a) == Format(b) <==> a == b
  {
    CivilRoundTrip(a);
    CivilRoundTrip(b);
    var c, d := ToCivil(a), ToCivil(b);
    CivilFits(c);
    CivilFits(d);
    hide ToCivil, IsCivil, Render, LexLess, SeqLess, At;
    RenderOrder(LAYOUT, Fields(c), Fields(d));
    CivilOrder(c, d);
    CivilOrder(d, c);
    SeqLessTotal(Fields(c), Fields(d));
    if Fields(c) == Fields(d) {
      assert c == d by { SameFields(c, d); }
    }
  }

  /** The instant a rendered text names. */
  function ParseInstant(s: string): nat {
    var f := Unrender(LAYOUT, s);
    if |f| == 7 then At(Civil(f[0], f[1], f[2], f[3], f[4], f[5], f[6])) else 0
  }

  /** A rendered instant of the years 0 to 9999 reads back as itself. */
  lemma FormatParses(at: nat)
    requires InRange(at)
    ensures ParseInstant(Format(at)) == at
  {
    CivilRoundTrip(at);
    CivilFits(ToCivil(at));
    hide ToCivil, IsCivil, Render, Unrender, At;
    RenderParses(LAYOUT, Fields(ToCivil(at)));
  }

  /** The rendering shows the civil time of the instant, field by field, all zeros kept. */
  lemma FormatShows(at: nat)
    requires InRange(at)
    ensures var c := ToCivil(at);
      && IsCivil(c) && At(c) == at
      && Format(at) == Pad(c.year, 4) + ("-" + (Pad(c.month, 2) + ("-" + (Pad(c.day, 2) + ("T" + (
           Pad(c.hour, 2) + (":" + (Pad(c.minute, 2) + (":" + (Pad(c.second, 2) + ("." + (
           Pad(c.nano, 9) + "Z"))))))))))))
  {
    CivilRoundTrip(at);
    hide ToCivil, IsCivil, At, Pad, Render;
    var l, f := LAYOUT, Fields(ToCivil(at));
    RenderStep(l, f, 6);
    RenderStep(l, f, 5);
    RenderStep(l, f, 4);
    RenderStep(l, f, 3);
    RenderStep(l, f, 2);
    RenderStep(l, f, 1);
    RenderStep(l, f, 0);
    assert l[7..] == [] && f[7..] == [] && Render([], []) == "" && "Z" + "" == "Z" by {
      NothingRendered();
    }
    assert l[0..] == l && f[0..] == f;
  }

  lemma NothingRendered()
    ensures Render([], []) == ""
  {
  }

  lemma RenderStep(layout: seq<Slot>, values: seq<nat>, i: nat)
    requires i < |layout| == |values|
    ensures Render(layout[i..], values[i..])
         == Pad(values[i], layout[i].width) + (layout[i].separator + Render(layout[i + 1..], values[i + 1..]))
  {
    assert layout[i..][1..] == layout[i + 1..] && values[i..][1..] == values[i + 1..];
  }

  lemma SameFields(a: Civil, b: Civil)
    requires Fields(a) == Fields(b)
    ensures a == b
  {
  }

  // ---------- Unix seconds ----------

  const UNIX_EPOCH := 62_167_219_200

  function UnixSeconds(at: nat): int {
    at / NANOS - UNIX_EPOCH
  }

  /** The count goes up by one with each second, and not in between. */
  lemma UnixSecondsCount(at: nat, later: nat)
    ensures at <= later ==> UnixSeconds(at) <= UnixSeconds(later)
    ensures UnixSeconds(at + NANOS) == UnixSeconds(at) + 1
  {
  }

  /** The Unix epoch is the start of the year 1970. */
  lemma EpochIs1970()
    ensures UnixSeconds(At(Civil(1970, 1, 1, 0, 0, 0, 0))) == 0
  {
    DaysBeforeYearCloses(1970);
    hide DaysBeforeYear;
    assert At(Civil(1970, 1, 1, 0, 0, 0, 0)) == 719_528 * DAY;
  }
}
