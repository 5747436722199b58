/** Dates as the fare mapper reads and prints them:
    `datetime.strptime(s, "%Y-%m-%d %H:%M:%S")` followed by `.date()`, and
    `str()` of a date. The parser follows the regular expressions Python's
    `strptime` builds for these directives (ASCII digits only), and the range
    checks `date` and `datetime` then apply. */
module Calendar {
  import opened Wrappers
  import opened Text
  import opened Numbers

  datatype Date = Date(year: int, month: int, day: int)

  datatype DateTime = DateTime(date: Date, hour: int, minute: int, second: int)

  predicate IsLeapYear(y: int)
  {
    y % 4 == 0 && (y % 100 != 0 || y % 400 == 0)
  }

  function DaysInMonth(y: int, m: int): (n: int)
    requires 1 <= m <= 12
    ensures 28 <= n <= 31
    ensures n == 29 <==> m == 2 && IsLeapYear(y)
  {
    if m == 2 then (if IsLeapYear(y) then 29 else 28)
    else if m == 4 || m == 6 || m == 9 || m == 11 then 30
    else 31
  }

  /** What `datetime.date` accepts. */
  predicate ValidDate(d: Date)
  {
    1 <= d.year <= 9999 && 1 <= d.month <= 12 && 1 <= d.day <= DaysInMonth(d.year, d.month)
  }

  /** What `datetime.datetime` accepts (no leap seconds). */
  predicate ValidDateTime(t: DateTime)
  {
    ValidDate(t.date) && 0 <= t.hour <= 23 && 0 <= t.minute <= 59 && 0 <= t.second <= 59
  }

  // The texts each directive's regular expression matches.

  predicate InRange(c: char, lo: char, hi: char)
  {
    lo <= c <= hi
  }

  /** `%m`: `1[0-2]|0[1-9]|[1-9]`. */
  predicate MonthText(t: string)
  {
    || (|t| == 2 && t[0] == '1' && InRange(t[1], '0', '2'))
    || (|t| == 2 && t[0] == '0' && InRange(t[1], '1', '9'))
    || (|t| == 1 && InRange(t[0], '1', '9'))
  }

  /** `%d`: `3[01]|[12]\d|0[1-9]|[1-9]| [1-9]`. */
  predicate DayText(t: string)
  {
    || (|t| == 2 && t[0] == '3' && InRange(t[1], '0', '1'))
    || (|t| == 2 && InRange(t[0], '1', '2') && IsDigit(t[1]))
    || (|t| == 2 && t[0] == '0' && InRange(t[1], '1', '9'))
    || (|t| == 1 && InRange(t[0], '1', '9'))
    || (|t| == 2 && t[0] == ' ' && InRange(t[1], '1', '9'))
  }

  /** `%H`: `2[0-3]|[0-1]\d|\d`. */
  predicate HourText(t: string)
  {
    || (|t| == 2 && t[0] == '2' && InRange(t[1], '0', '3'))
    || (|t| == 2 && InRange(t[0], '0', '1') && IsDigit(t[1]))
    || (|t| == 1 && IsDigit(t[0]))
  }

  /** `%M`: `[0-5]\d|\d`. */
  predicate MinuteText(t: string)
  {
    || (|t| == 2 && InRange(t[0], '0', '5') && IsDigit(t[1]))
    || (|t| == 1 && IsDigit(t[0]))
  }

  /** `%S`: `6[0-1]|[0-5]\d|\d`; being the last directive it must also use
      up the rest of the string. */
  predicate SecondText(t: string)
  {
    || (|t| == 2 && t[0] == '6' && InRange(t[1], '0', '1'))
    || (|t| == 2 && InRange(t[0], '0', '5') && IsDigit(t[1]))
    || (|t| == 1 && IsDigit(t[0]))
  }

  /** `int()` of a matched field; only a day can carry a leading space. */
  function FieldValue(t: string): nat
    requires AllDigits(t) || (|t| == 2 && t[0] == ' ' && IsDigit(t[1]))
  {
    if AllDigits(t) then DigitsValue(t) else DigitValue(t[1])
  }

  /** Position of the first `c` in `s`, or `|s|`. */
  function IndexOf(s: string, c: char): (i: nat)
    ensures i <= |s| && forall j :: 0 <= j < i ==> s[j] != c
    ensures i < |s| ==> s[i] == c
  {
    if s == [] || s[0] == c then 0 else 1 + IndexOf(s[1..], c)
  }

  /** The text before the first `c` and the text after it. */
  function Until(s: string, c: char): (r: Option<(string, string)>)
    ensures r.Some? ==> s == r.value.0 + [c] + r.value.1 && c !in r.value.0
  {
    var i := IndexOf(s, c);
    if i == |s| then None
    else
      assert s == s[..i] + [c] + s[i + 1..];
      assert forall j :: 0 <= j < i ==> s[..i][j] != c;
      Some((s[..i], s[i + 1..]))
  }

  /** Length of the leading white space of `s`, all of which `\s+` takes. */
  function SpaceRun(s: string): (n: nat)
    ensures n <= |s| && AllSpace(s[..n])
    ensures n < |s| ==> !IsSpace(s[n])
  {
    if s == [] || !IsSpace(s[0]) then 0
    else
      var n := 1 + SpaceRun(s[1..]);
      assert s[..n] == [s[0]] + s[1..][..n - 1];
      n
  }

  /** The day field and what follows it: ` [1-9]` when it starts with a
      space, and otherwise the text up to the first white space. */
  function DayToken(s: string): (r: (string, string))
    ensures r.0 + r.1 == s
  {
    if s != [] && s[0] == ' ' then
      if |s| < 2 then (s, []) else (s[..2], s[2..])
    else
      var i := Position(s);
      (s[..i], s[i..])
  }

  /** Position of the first white space in `s`, or `|s|`. */
  function Position(s: string): (i: nat)
    ensures i <= |s| && (forall j :: 0 <= j < i ==> !IsSpace(s[j]))
    ensures i < |s| ==> IsSpace(s[i])
  {
    if s == [] || IsSpace(s[0]) then 0 else 1 + Position(s[1..])
  }

  /** The value of a matched month, day, hour, minute or second field. */
  function Field(t: string, ok: string -> bool): Option<nat>
  {
    if ok(t) && (AllDigits(t) || (|t| == 2 && t[0] == ' ' && IsDigit(t[1]))) then Some(FieldValue(t)) else None
  }

  /** `datetime.strptime(s, "%Y-%m-%d %H:%M:%S")`; `None` for `ValueError`.
      `%Y` is exactly four digits; the month runs up to the next `-`. */
  function ParseDateTime(s: string): (r: Option<DateTime>)
    ensures r.Some? ==> ValidDateTime(r.value)
  {
    if |s| < 5 || !AllDigits(s[..4]) || s[4] != '-' then None
    else
      match Until(s[5..], '-')
      case None => None
      case Some((mt, rest)) => ParseDayAndClock(DigitsValue(s[..4]), mt, rest)
  }

  /** The day, then the white space the format's space stands for, then
      the clock. */
  function ParseDayAndClock(year: int, mt: string, rest: string): (r: Option<DateTime>)
    ensures r.Some? ==> ValidDateTime(r.value)
  {
    var (dt, afterDay) := DayToken(rest);
    var gap := SpaceRun(afterDay);
    if gap == 0 then None else ParseClock(year, mt, dt, afterDay[gap..])
  }

  /** `%H:%M:%S`, the seconds running to the end of the text. */
  function ParseClock(year: int, mt: string, dt: string, clock: string): (r: Option<DateTime>)
    ensures r.Some? ==> ValidDateTime(r.value)
  {
    match Until(clock, ':')
    case None => None
    case Some((ht, rest)) =>
      match Until(rest, ':')
      case None => None
      case Some((nt, st)) => Assemble(year, mt, dt, ht, nt, st)
  }

  /** The fields once the text has been cut up: each must match its
      directive, and the result must be a real date and time. */
  function Assemble(year: int, mt: string, dt: string, ht: string, nt: string, st: string): (r: Option<DateTime>)
    ensures r.Some? ==> ValidDateTime(r.value)
  {
    match (Field(mt, MonthText), Field(dt, DayText), Field(ht, HourText), Field(nt, MinuteText), Field(st, SecondText))
    case (Some(month), Some(day), Some(hour), Some(minute), Some(second)) =>
      var t := DateTime(Date(year, month, day), hour, minute, second);
      if ValidDateTime(t) then Some(t) else None
    case _ => None
  }

  // Printing

  /** `n` in exactly `w` decimal digits, zero-padded. */
  function Padded(n: nat, w: nat): (r: string)
    requires n < Pow10(w)
    ensures |r| == w && AllDigits(r) && DigitsValue(r) == n
  {
    if w == 0 then []
    else
      var r := Padded(n / 10, w - 1) + [DigitChar(n % 10)];
      assert r[..|r| - 1] == Padded(n / 10, w - 1);
      r
  }

  function Pow10(w: nat): (p: nat)
    ensures p >= 1
  {
    if w == 0 then 1 else 10 * Pow10(w - 1)
  }

  /** `str(date)`: `YYYY-MM-DD`. */
  function IsoDate(d: Date): (r: string)
    requires ValidDate(d)
    ensures |r| == 10 && r[4] == '-' && r[7] == '-'
    ensures forall i :: 0 <= i < |r| ==> (IsDigit(r[i]) <==> i != 4 && i != 7)
  {
    assert Pow10(4) == 10000 && Pow10(2) == 100;
    var y, m, dd := Padded(d.year, 4), Padded(d.month, 2), Padded(d.day, 2);
    var r := y + "-" + m + "-" + dd;
    assert forall i :: 0 <= i < 4 ==> r[i] == y[i];
    assert forall i :: 5 <= i < 7 ==> r[i] == m[i - 5];
    assert forall i :: 8 <= i < 10 ==> r[i] == dd[i - 8];
    r
  }

  /** `str(datetime)` with no microseconds: `YYYY-MM-DD HH:MM:SS`, the form
      the trip records use. */
  function IsoDateTime(t: DateTime): (r: string)
    requires ValidDateTime(t)
    ensures |r| == 19
  {
    assert Pow10(2) == 100;
    IsoDate(t.date) + " " + Padded(t.hour, 2) + ":" + Padded(t.minute, 2) + ":" + Padded(t.second, 2)
  }

  lemma UntilAt(a: string, c: char, b: string)
    requires c !in a
    ensures Until(a + [c] + b, c) == Some((a, b))
  {
    var s := a + [c] + b;
    assert s[|a|] == c;
    assert forall j :: 0 <= j < |a| ==> s[j] == a[j];
    assert IndexOf(s, c) == |a|;
    assert s[..|a|] == a;
    assert s[|a| + 1..] == b;
  }

  lemma PaddedTwoTexts(n: nat)
    requires n < 100
    ensures var t := Padded(n, 2);
      && (1 <= n <= 12 ==> MonthText(t))
      && (1 <= n <= 31 ==> DayText(t))
      && (n <= 23 ==> HourText(t))
      && (n <= 59 ==> MinuteText(t) && SecondText(t))
      && AllDigits(t) && FieldValue(t) == n
  {
    assert Pow10(2) == 100 && Pow10(1) == 10;
    var t := Padded(n, 2);
    assert t == Padded(n / 10, 1) + [DigitChar(n % 10)];
    assert Padded(n / 10, 1) == Padded(0, 0) + [DigitChar(n / 10)];
    assert t[0] == DigitChar(n / 10) && t[1] == DigitChar(n % 10);
  }

  lemma CutClock(year: int, mt: string, dt: string, h: string, mi: string, se: string)
    requires ':' !in h && ':' !in mi
    ensures ParseClock(year, mt, dt, h + ":" + mi + ":" + se) == Assemble(year, mt, dt, h, mi, se)
  {
    assert h + ":" + mi + ":" + se == h + [':'] + (mi + [':'] + se);
    UntilAt(h, ':', mi + ":" + se);
    UntilAt(mi, ':', se);
  }

  lemma CutDay(year: int, mt: string, d: string, clock: string)
    requires |d| == 2 && AllDigits(d) && clock != [] && !IsSpace(clock[0])
    ensures ParseDayAndClock(year, mt, d + " " + clock) == ParseClock(year, mt, d, clock)
  {
    var afterDay := " " + clock;
    var rest := d + afterDay;
    assert d + " " + clock == rest;
    assert DayToken(rest) == (d, afterDay) by {
      assert rest[0] == d[0] && rest[1] == d[1] && rest[2] == ' ';
      assert Position(rest) == 2;
      assert rest[..2] == d && rest[2..] == afterDay;
    }
    assert SpaceRun(afterDay) == 1 by {
      assert afterDay[1] == clock[0];
    }
    assert afterDay[1..] == clock;
  }

  lemma CutDate(y: string, m: string, rest: string)
    requires |y| == 4 && AllDigits(y) && '-' !in m
    ensures ParseDateTime(y + "-" + m + "-" + rest) == ParseDayAndClock(DigitsValue(y), m, rest)
  {
    var s := y + "-" + m + "-" + rest;
    assert s[..4] == y && s[4] == '-';
    assert s[5..] == m + ['-'] + rest;
    UntilAt(m, '-', rest);
  }

  /** The printed layout of a timestamp, grouped the way the parser cuts it. */
  function Layout(y: string, m: string, d: string, h: string, mi: string, se: string): string
  {
    y + "-" + m + "-" + (d + " " + (h + ":" + mi + ":" + se))
  }

  /** How the parser cuts up a timestamp laid out with a two-digit day and
      a single space. */
  lemma CutUp(y: string, m: string, d: string, h: string, mi: string, se: string)
    requires |y| == 4 && AllDigits(y) && '-' !in m
    requires |d| == 2 && AllDigits(d) && h != [] && AllDigits(h) && ':' !in h && ':' !in mi
    ensures ParseDateTime(Layout(y, m, d, h, mi, se)) == Assemble(DigitsValue(y), m, d, h, mi, se)
  {
    var clock := h + ":" + mi + ":" + se;
    CutDate(y, m, d + " " + clock);
    assert clock[0] == h[0];
    DigitNotSpace(h[0]);
    CutDay(DigitsValue(y), m, d, clock);
    CutClock(DigitsValue(y), m, d, h, mi, se);
  }

  /** Parsing what a valid timestamp prints gives the timestamp back. */
  lemma ParsePrinted(t: DateTime)
    requires ValidDateTime(t)
    ensures ParseDateTime(IsoDateTime(t)) == Some(t)
  {
    assert Pow10(4) == 10000 && Pow10(2) == 100;
    var y, m, d := Padded(t.date.year, 4), Padded(t.date.month, 2), Padded(t.date.day, 2);
    var h, mi, se := Padded(t.hour, 2), Padded(t.minute, 2), Padded(t.second, 2);
    assert IsoDateTime(t) == Layout(y, m, d, h, mi, se);
    PaddedTwoTexts(t.date.month);
    PaddedTwoTexts(t.hour);
    CutUp(y, m, d, h, mi, se);
    AssemblePrinted(t);
  }

  /** The printed fields of a valid timestamp match their directives and
      give the timestamp back. */
  lemma AssemblePrinted(t: DateTime)
    requires ValidDateTime(t)
    ensures Assemble(t.date.year, Padded(t.date.month, 2), Padded(t.date.day, 2),
      Padded(t.hour, 2), Padded(t.minute, 2), Padded(t.second, 2)) == Some(t)
  {
    assert Pow10(4) == 10000 && Pow10(2) == 100;
    PaddedTwoTexts(t.date.month);
    PaddedTwoTexts(t.date.day);
    PaddedTwoTexts(t.hour);
    PaddedTwoTexts(t.minute);
    PaddedTwoTexts(t.second);
  }

  /** What the fare mapper prints as the day of a timestamp. */
  function PickupDay(s: string): (r: Option<string>)
    ensures r.Some? ==> |r.value| == 10
  {
    match ParseDateTime(s)
    case Some(t) => Some(IsoDate(t.date))
    case None => None
  }

  /** The day printed for a timestamp is its date. */
  lemma PickupDayOfPrinted(t: DateTime)
    requires ValidDateTime(t)
    ensures PickupDay(IsoDateTime(t)) == Some(IsoDate(t.date))
  {
    ParsePrinted(t);
  }
}
