/**
 * `_parse_date` (utils.py): a date-time value is returned as it is;
 * anything else is turned into text and read with `datetime.strptime`
 * against four layouts in a fixed order, the first that succeeds winning;
 * when none does, the result is the epoch, `datetime.fromtimestamp(0)`.
 *
 * `strptime` is modelled the way CPython's `_strptime` builds its regular
 * expression: `%Y` is exactly four digits; `%m`, `%d`, `%H` and `%M` take
 * two digits when those two form a value the directive accepts and one
 * digit otherwise (`%d` also accepts a space and a digit); a space in the
 * layout matches one or more whitespace characters; the whole text must be
 * consumed; and the fields must form a real calendar date.
 */
module Dates {
  import opened Wrappers
  import opened Text

  /** A naive `datetime` (no time zone), down to microseconds. */
  datatype DateTime = DateTime(year: int, month: int, day: int,
                               hour: int, minute: int, second: int, micro: int)

  predicate IsLeap(y: int) {
    y % 4 == 0 && (y % 100 != 0 || y % 400 == 0)
  }

  function DaysInMonth(y: int, m: int): int
    requires 1 <= m <= 12
  {
    if m == 2 then (if IsLeap(y) then 29 else 28)
    else if m == 4 || m == 6 || m == 9 || m == 11 then 30
    else 31
  }

  /** A date Python's `date` can represent (years 1 to 9999, real days). */
  predicate ValidDate(y: int, m: int, d: int) {
    1 <= y <= 9999 && 1 <= m <= 12 && 1 <= d <= DaysInMonth(y, m)
  }

  predicate Valid(t: DateTime) {
    ValidDate(t.year, t.month, t.day) && 0 <= t.hour < 24 && 0 <= t.minute < 60
    && 0 <= t.second < 60 && 0 <= t.micro < 1000000
  }

  /** `datetime.fromtimestamp(0)`, taken in UTC. */
  const Epoch: DateTime := DateTime(1970, 1, 1, 0, 0, 0, 0)

  /** A `date` metadata value as the front-matter loader can hand it over. */
  datatype MetaDate =
    | DateTimeValue(dt: DateTime)                   // a `datetime`
    | DateValue(year: int, month: int, day: int)    // a YAML date, a `date`
    | TextValue(text: string)                       // text, or `str()` of any other scalar

  predicate WellFormed(m: MetaDate) {
    match m
    case DateTimeValue(dt) => Valid(dt)
    case DateValue(y, mo, d) => ValidDate(y, mo, d)
    case TextValue(_) => true
  }

  // ---- str() of a date: "%04d-%02d-%02d" ----

  function DigitChar(n: int): char
    requires 0 <= n < 10
  {
    ('0' as int + n) as char
  }

  function TwoDigits(n: int): string
    requires 0 <= n < 100
  {
    [DigitChar(n / 10), DigitChar(n % 10)]
  }

  function FourDigits(n: int): string
    requires 0 <= n < 10000
  {
    TwoDigits(n / 100) + TwoDigits(n % 100)
  }

  /** `str(m)` for the non-`datetime` values. */
  function Str(m: MetaDate): string
    requires WellFormed(m) && !m.DateTimeValue?
  {
    match m
    case DateValue(y, mo, d) => FourDigits(y) + "-" + TwoDigits(mo) + "-" + TwoDigits(d)
    case TextValue(s) => s
  }

  // ---- the strptime fields ----

  /** A field read from the front of a text, and the text after it. */
  datatype Scan = Scan(value: int, rest: string)

  predicate IsDigit(c: char) { '0' <= c <= '9' }

  function DigitValue(c: char): int { c as int - '0' as int }

  /** `%Y`: exactly four digits. */
  function ScanYear(s: string): (r: Option<Scan>)
    ensures r.Some? ==> |s| >= 4 && 0 <= r.value.value <= 9999 && r.value.rest == s[4..]
  {
    if |s| >= 4 && IsDigit(s[0]) && IsDigit(s[1]) && IsDigit(s[2]) && IsDigit(s[3])
    then Some(Scan(DigitValue(s[0]) * 1000 + DigitValue(s[1]) * 100
                   + DigitValue(s[2]) * 10 + DigitValue(s[3]), s[4..]))
    else None
  }

  /**
   * A one- or two-digit field accepting values in [lo, hi] (`%m`, `%H`, `%M`,
   * and `%d` without its space form): two digits when they form an accepted
   * value, otherwise one accepted digit.
   */
  function ScanNumber(s: string, lo: int, hi: int): (r: Option<Scan>)
    ensures r.Some? ==> lo <= r.value.value <= hi
    ensures r.Some? ==> |s| >= 1 && IsDigit(s[0]) && 1 <= |s| - |r.value.rest| <= 2
    ensures r.Some? ==> r.value.rest == s[|s| - |r.value.rest|..]
    ensures r.Some? && |s| - |r.value.rest| == 2 ==> IsDigit(s[1]) && r.value.value == DigitValue(s[0]) * 10 + DigitValue(s[1])
    ensures r.Some? && |s| - |r.value.rest| == 1 ==> r.value.value == DigitValue(s[0])
    ensures |s| >= 2 && IsDigit(s[0]) && IsDigit(s[1]) && lo <= DigitValue(s[0]) * 10 + DigitValue(s[1]) <= hi
      ==> r.Some? && |s| - |r.value.rest| == 2
    ensures r.None? <==>
      (!(|s| >= 1 && IsDigit(s[0]) && lo <= DigitValue(s[0]) <= hi)
       && !(|s| >= 2 && IsDigit(s[0]) && IsDigit(s[1]) && lo <= DigitValue(s[0]) * 10 + DigitValue(s[1]) <= hi))
  {
    if |s| >= 2 && IsDigit(s[0]) && IsDigit(s[1])
       && lo <= DigitValue(s[0]) * 10 + DigitValue(s[1]) <= hi
    then Some(Scan(DigitValue(s[0]) * 10 + DigitValue(s[1]), s[2..]))
    else if |s| >= 1 && IsDigit(s[0]) && lo <= DigitValue(s[0]) <= hi
    then Some(Scan(DigitValue(s[0]), s[1..]))
    else None
  }

  /** `%d`: a day number, or a space followed by a digit from 1 to 9. */
  function ScanDay(s: string): (r: Option<Scan>)
    ensures r.Some? ==> 1 <= r.value.value <= 31
    ensures r.Some? ==> 1 <= |s| - |r.value.rest| <= 2 && r.value.rest == s[|s| - |r.value.rest|..]
  {
    match ScanNumber(s, 1, 31)
    case Some(r) => Some(r)
    case None =>
      if |s| >= 2 && s[0] == ' ' && '1' <= s[1] <= '9' then Some(Scan(DigitValue(s[1]), s[2..]))
      else None
  }

  /** A literal separator character of the layout. */
  function ScanChar(s: string, c: char): Option<string> {
    if |s| >= 1 && s[0] == c then Some(s[1..]) else None
  }

  /** A space of the layout: one or more whitespace characters. */
  function ScanSpaces(s: string): Option<string> {
    if |s| >= 1 && IsSpace(s[0]) then Some(StripLeft(s)) else None
  }

  /** The end of parsing: nothing left over, and the fields form a real date. */
  function Finish(y: int, m: int, d: int, hh: int, mm: int, rest: string): (r: Option<DateTime>)
    requires 0 <= hh < 24 && 0 <= mm < 60
    ensures r.Some? ==> Valid(r.value)
  {
    if rest == [] && ValidDate(y, m, d) then Some(DateTime(y, m, d, hh, mm, 0, 0)) else None
  }

  /** The fields of "%Y<sep>%m<sep>%d" read from the front of a text. */
  datatype Ymd = Ymd(year: int, month: int, day: int, rest: string)

  function ScanYmd(s: string, sep: char): (r: Option<Ymd>)
    ensures r.Some? ==> |s| >= 5 && IsDigit(s[0]) && IsDigit(s[1]) && IsDigit(s[2]) && IsDigit(s[3]) && s[4] == sep
  {
    var y :- ScanYear(s);
    var s1 :- ScanChar(y.rest, sep);
    var m :- ScanNumber(s1, 1, 12);
    var s2 :- ScanChar(m.rest, sep);
    var d :- ScanDay(s2);
    Some(Ymd(y.value, m.value, d.value, d.rest))
  }

  /** "%Y-%m-%d" when `sep` is '-', "%Y/%m/%d" when it is '/'. */
  function LayoutYmd(s: string, sep: char): (r: Option<DateTime>)
    ensures r.Some? ==> Valid(r.value)
  {
    var t :- ScanYmd(s, sep);
    Finish(t.year, t.month, t.day, 0, 0, t.rest)
  }

  /** "%d-%m-%Y" */
  function LayoutDmy(s: string): (r: Option<DateTime>)
    ensures r.Some? ==> Valid(r.value)
  {
    var d :- ScanDay(s);
    var s1 :- ScanChar(d.rest, '-');
    var m :- ScanNumber(s1, 1, 12);
    var s2 :- ScanChar(m.rest, '-');
    var y :- ScanYear(s2);
    Finish(y.value, m.value, d.value, 0, 0, y.rest)
  }

  /** The fields of "%H:%M" read from the front of a text. */
  datatype Clock = Clock(hour: int, minute: int, rest: string)

  function ScanClock(s: string): (r: Option<Clock>)
    ensures r.Some? ==> 0 <= r.value.hour < 24 && 0 <= r.value.minute < 60
  {
    var hh :- ScanNumber(s, 0, 23);
    var s1 :- ScanChar(hh.rest, ':');
    var mm :- ScanNumber(s1, 0, 59);
    Some(Clock(hh.value, mm.value, mm.rest))
  }

  /** "%Y-%m-%d %H:%M" */
  function LayoutYmdHm(s: string): (r: Option<DateTime>)
    ensures r.Some? ==> Valid(r.value)
  {
    var t :- ScanYmd(s, '-');
    var s1 :- ScanSpaces(t.rest);
    var c :- ScanClock(s1);
    Finish(t.year, t.month, t.day, c.hour, c.minute, c.rest)
  }

  /** The four layouts tried in order; the epoch when none fits. */
  function ParseText(s: string): (r: DateTime)
    ensures Valid(r)
    ensures r != Epoch ==> LayoutYmd(s, '-').Some? || LayoutYmd(s, '/').Some?
                           || LayoutDmy(s).Some? || LayoutYmdHm(s).Some?
    ensures LayoutYmd(s, '-').None? && LayoutYmd(s, '/').None? && LayoutDmy(s).None? && LayoutYmdHm(s).None?
            ==> r == Epoch
  {
    match LayoutYmd(s, '-')
    case Some(t) => t
    case None =>
      match LayoutYmd(s, '/')
      case Some(t) => t
      case None =>
        match LayoutDmy(s)
        case Some(t) => t
        case None =>
          match LayoutYmdHm(s)
          case Some(t) => t
          case None => Epoch
  }

  /** `_parse_date`: never raises, always yields a real date-time. */
  function ParseDate(m: MetaDate): (r: DateTime)
    requires WellFormed(m)
    ensures Valid(r)
    ensures m.DateTimeValue? ==> r == m.dt
  {
    match m
    case DateTimeValue(dt) => dt
    case _ => ParseText(Str(m))
  }

  // ---- properties of _parse_date ----

  lemma TwoDigitsScan(n: int, lo: int, hi: int, rest: string)
    requires 0 <= n < 100 && lo <= n <= hi
    ensures ScanNumber(TwoDigits(n) + rest, lo, hi) == Some(Scan(n, rest))
  {
    var t := TwoDigits(n) + rest;
    assert t[0] == DigitChar(n / 10) && t[1] == DigitChar(n % 10) && t[2..] == rest;
  }

  lemma FourDigitsScan(n: int, rest: string)
    requires 0 <= n < 10000
    ensures ScanYear(FourDigits(n) + rest) == Some(Scan(n, rest))
  {
    var hi, lo := n / 100, n % 100;
    var t := FourDigits(n) + rest;
    assert t == [DigitChar(hi / 10), DigitChar(hi % 10), DigitChar(lo / 10), DigitChar(lo % 10)] + rest;
    assert t[4..] == rest;
    assert DigitValue(t[0]) * 10 + DigitValue(t[1]) == hi;
    assert DigitValue(t[2]) * 10 + DigitValue(t[3]) == lo;
  }

  /** Year, month and day written with two-digit fields are read back by `ScanYmd`. */
  lemma YmdRoundTrip(y: int, m: int, d: int, sep: char, rest: string)
    requires ValidDate(y, m, d)
    ensures ScanYmd(FourDigits(y) + [sep] + TwoDigits(m) + [sep] + TwoDigits(d) + rest, sep)
            == Some(Ymd(y, m, d, rest))
  {
    var afterMonth := [sep] + TwoDigits(d) + rest;
    var afterYear := [sep] + TwoDigits(m) + afterMonth;
    YmdPieces(FourDigits(y), TwoDigits(m), TwoDigits(d), sep, rest);
    FourDigitsScan(y, afterYear);
    assert ScanChar(afterYear, sep) == Some(TwoDigits(m) + afterMonth);
    TwoDigitsScan(m, 1, 12, afterMonth);
    assert ScanChar(afterMonth, sep) == Some(TwoDigits(d) + rest);
    TwoDigitsScan(d, 1, 31, rest);
  }

  lemma YmdPieces(year: string, month: string, day: string, sep: char, rest: string)
    ensures var afterMonth := [sep] + day + rest;
      var afterYear := [sep] + month + afterMonth;
      year + [sep] + month + [sep] + day + rest == year + afterYear
      && afterYear[1..] == month + afterMonth && afterMonth[1..] == day + rest
  {
  }

  /**
   * A YAML date goes through `str()` and the first layout and comes back
   * as midnight of the same day.
   */
  lemma DateValueRoundTrip(y: int, m: int, d: int)
    requires ValidDate(y, m, d)
    ensures ParseDate(DateValue(y, m, d)) == DateTime(y, m, d, 0, 0, 0, 0)
  {
    var s := Str(DateValue(y, m, d));
    assert s == FourDigits(y) + ['-'] + TwoDigits(m) + ['-'] + TwoDigits(d) + [];
    YmdRoundTrip(y, m, d, '-', []);
  }

  /** The text after a `%Y` that succeeded starts at index 4, and the first four characters are digits. */
  lemma YearDigits(s: string)
    requires ScanYear(s).Some?
    ensures |s| >= 4 && IsDigit(s[0]) && IsDigit(s[1]) && IsDigit(s[2]) && IsDigit(s[3])
  {
  }

  /** "%d-%m-%Y" cannot read a text that opens with four digits. */
  lemma DmyNeedsShortDay(s: string)
    requires |s| >= 4 && IsDigit(s[0]) && IsDigit(s[1]) && IsDigit(s[2])
    ensures LayoutDmy(s).None?
  {
    var d := ScanDay(s);
    if d.Some? {
      var k := |s| - |d.value.rest|;
      assert d.value.rest == s[k..];
      assert d.value.rest[0] == s[k];
    }
  }

  /**
   * The four layouts never read the same text, so the order they are tried
   * in cannot change the outcome: whichever layout reads the text gives
   * the result.
   */
  lemma AnyLayoutDecides(s: string)
    ensures LayoutYmd(s, '-').Some? ==> ParseText(s) == LayoutYmd(s, '-').value
    ensures LayoutYmd(s, '/').Some? ==> ParseText(s) == LayoutYmd(s, '/').value
    ensures LayoutDmy(s).Some? ==> ParseText(s) == LayoutDmy(s).value
    ensures LayoutYmdHm(s).Some? ==> ParseText(s) == LayoutYmdHm(s).value
  {
    if ScanYear(s).Some? {
      YearDigits(s);
      DmyNeedsShortDay(s);
      if LayoutYmdHm(s).Some? {
        assert ScanYmd(s, '-').value.rest != [];
      }
    }
  }

  /** Day first: "05-03-2024" is the fifth of March. */
  lemma ReadsDayFirst()
    ensures ParseText("05-03-2024") == DateTime(2024, 3, 5, 0, 0, 0, 0)
  {
    DayFirstFields();
    AnyLayoutDecides("05-03-2024");
  }

  lemma DayFirstFields()
    ensures LayoutDmy("05-03-2024") == Some(DateTime(2024, 3, 5, 0, 0, 0, 0))
  {
    DayFirstDay();
    DayFirstMonth();
    DayFirstYear();
    assert ValidDate(2024, 3, 5);
  }

  lemma DayFirstYear()
    ensures ScanYear("-2024"[1..]) == Some(Scan(2024, []))
  {
    assert "-2024"[1..] == FourDigits(2024) + [];
    FourDigitsScan(2024, []);
  }

  lemma DayFirstDay()
    ensures ScanDay("05-03-2024") == Some(Scan(5, "-03-2024"))
  {
    assert "05-03-2024" == TwoDigits(5) + "-03-2024";
    TwoDigitsScan(5, 1, 31, "-03-2024");
  }

  lemma DayFirstMonth()
    ensures ScanNumber("-03-2024"[1..], 1, 12) == Some(Scan(3, "-2024"))
  {
    assert "-03-2024"[1..] == TwoDigits(3) + "-2024";
    TwoDigitsScan(3, 1, 12, "-2024");
  }

  /** Text written as "%Y-%m-%d %H:%M" is read back by the fourth layout. */
  lemma TimeLayoutRoundTrip(y: int, m: int, d: int, hh: int, mm: int)
    requires ValidDate(y, m, d) && 0 <= hh < 24 && 0 <= mm < 60
    ensures LayoutYmdHm(FourDigits(y) + ['-'] + TwoDigits(m) + ['-'] + TwoDigits(d) + TimeText(hh, mm))
            == Some(DateTime(y, m, d, hh, mm, 0, 0))
  {
    var time := TwoDigits(hh) + [':'] + TwoDigits(mm);
    var full := FourDigits(y) + ['-'] + TwoDigits(m) + ['-'] + TwoDigits(d) + TimeText(hh, mm);
    YmdRoundTrip(y, m, d, '-', TimeText(hh, mm));
    SpaceBeforeTime(hh, mm);
    ClockRoundTrip(hh, mm);
  }

  /** The single space before "%H:%M" is skipped and nothing more. */
  lemma SpaceBeforeTime(hh: int, mm: int)
    requires 0 <= hh < 24 && 0 <= mm < 60
    ensures ScanSpaces(TimeText(hh, mm)) == Some(TwoDigits(hh) + [':'] + TwoDigits(mm))
  {
    var time := TwoDigits(hh) + [':'] + TwoDigits(mm);
    var t := TimeText(hh, mm);
    assert t[0] == ' ' && t[1..] == time;
    assert StripLeft(t) == StripLeft(time);
    DigitNotSpace(time[0]);
  }

  lemma DigitNotSpace(c: char)
    requires '0' <= c <= '9'
    ensures !IsSpace(c)
  {
  }

  lemma ClockRoundTrip(hh: int, mm: int)
    requires 0 <= hh < 24 && 0 <= mm < 60
    ensures ScanClock(TwoDigits(hh) + [':'] + TwoDigits(mm)) == Some(Clock(hh, mm, []))
  {
    var minute := [':'] + TwoDigits(mm);
    assert TwoDigits(hh) + [':'] + TwoDigits(mm) == TwoDigits(hh) + minute;
    TwoDigitsScan(hh, 0, 23, minute);
    assert minute[1..] == TwoDigits(mm) + [];
    assert ScanChar(minute, ':') == Some(TwoDigits(mm) + []);
    TwoDigitsScan(mm, 0, 59, []);
  }

  /** " %H:%M" with two-digit fields. */
  function TimeText(hh: int, mm: int): string
    requires 0 <= hh < 24 && 0 <= mm < 60
  {
    [' '] + TwoDigits(hh) + [':'] + TwoDigits(mm)
  }

  /** A layout with a time of day. */
  lemma ReadsTimeOfDay()
    ensures ParseText("2024-03-05 10:30") == DateTime(2024, 3, 5, 10, 30, 0, 0)
  {
    var s := "2024-03-05 10:30";
    assert s == FourDigits(2024) + ['-'] + TwoDigits(3) + ['-'] + TwoDigits(5) + TimeText(10, 30);
    TimeLayoutRoundTrip(2024, 3, 5, 10, 30);
    AnyLayoutDecides(s);
  }

  /** "yesterday" fits none of the layouts, so it gives the epoch. */
  lemma FallsBackToEpoch()
    ensures ParseText("yesterday") == Epoch
  {
    assert ScanYear("yesterday").None?;
    assert ScanDay("yesterday").None?;
  }

  /** A day that does not exist in the calendar gives the epoch. */
  lemma RejectsImpossibleDay()
    ensures ParseText("2023-02-29") == Epoch
  {
    var s := "2023-02-29";
    ImpossibleDayFields();
    assert !ValidDate(2023, 2, 29);
    assert LayoutYmd(s, '-').None?;
    assert LayoutYmd(s, '/').None?;
    DmyNeedsShortDay(s);
    assert ScanSpaces([]).None?;
    assert LayoutYmdHm(s).None?;
  }

  lemma ImpossibleDayFields()
    ensures ScanYmd("2023-02-29", '-') == Some(Ymd(2023, 2, 29, []))
    ensures ScanYmd("2023-02-29", '/').None?
  {
    var s := "2023-02-29";
    assert s == FourDigits(2023) + "-02-29";
    FourDigitsScan(2023, "-02-29");
    assert "-02-29"[1..] == TwoDigits(2) + "-29";
    TwoDigitsScan(2, 1, 12, "-29");
    assert "-29"[1..] == TwoDigits(29) + [];
    TwoDigitsScan(29, 1, 31, []);
    assert ScanChar("-02-29", '/').None?;
  }

  // ---- chronological order of date-times, as Python compares them ----

  function Fields(t: DateTime): seq<int> {
    [t.year, t.month, t.day, t.hour, t.minute, t.second, t.micro]
  }

  /** Lexicographic order of equally long integer sequences. */
  predicate LexLe(a: seq<int>, b: seq<int>)
    requires |a| == |b|
  {
    a == [] || a[0] < b[0] || (a[0] == b[0] && LexLe(a[1..], b[1..]))
  }

  /** `a <= b` on `datetime` values: field by field, the year first. */
  predicate NotAfter(a: DateTime, b: DateTime) {
    LexLe(Fields(a), Fields(b))
  }

  lemma {:induction false} LexLeTotal(a: seq<int>, b: seq<int>)
    requires |a| == |b|
    ensures LexLe(a, b) || LexLe(b, a)
  {
    if a != [] && a[0] == b[0] {
      LexLeTotal(a[1..], b[1..]);
    }
  }

  lemma {:induction false} LexLeTransitive(a: seq<int>, b: seq<int>, c: seq<int>)
    requires |a| == |b| == |c| && LexLe(a, b) && LexLe(b, c)
    ensures LexLe(a, c)
  {
    if a != [] && a[0] == b[0] == c[0] {
      LexLeTransitive(a[1..], b[1..], c[1..]);
    }
  }

  lemma {:induction false} LexLeAntisymmetric(a: seq<int>, b: seq<int>)
    requires |a| == |b| && LexLe(a, b) && LexLe(b, a)
    ensures a == b
  {
    if a != [] {
      LexLeAntisymmetric(a[1..], b[1..]);
      assert a == [a[0]] + a[1..] && b == [b[0]] + b[1..];
    }
  }

  lemma NotAfterTotal(a: DateTime, b: DateTime)
    ensures NotAfter(a, b) || NotAfter(b, a)
  {
    LexLeTotal(Fields(a), Fields(b));
  }

  lemma NotAfterTransitive(a: DateTime, b: DateTime, c: DateTime)
    requires NotAfter(a, b) && NotAfter(b, c)
    ensures NotAfter(a, c)
  {
    LexLeTransitive(Fields(a), Fields(b), Fields(c));
  }

  lemma NotAfterAntisymmetric(a: DateTime, b: DateTime)
    requires NotAfter(a, b) && NotAfter(b, a)
    ensures a == b
  {
    LexLeAntisymmetric(Fields(a), Fields(b));
  }
}
