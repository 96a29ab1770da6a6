/** The slice of Python's `datetime` that the pipeline uses: proleptic Gregorian dates,
    stepping back one day (`datetime.now() - timedelta(days=1)`), `strftime` with
    "%Y-%m-%d" and "%Y-%m-%d %H:%M", and `strptime` with the same two formats. */
module Calendar {
  import opened Wrappers
  import opened PyStr

  datatype Date = Date(year: int, month: int, day: int)

  /** A `datetime` at minute precision: the formats used here never carry seconds. */
  datatype DateTime = DateTime(date: Date, hour: int, minute: int)

  predicate IsLeapYear(y: int) {
    y % 4 == 0 && (y % 100 != 0 || y % 400 == 0)
  }

  function DaysInMonth(y: int, m: int): (n: int)
    requires 1 <= m <= 12
    ensures 28 <= n <= 31
    ensures n == 29 <==> m == 2 && IsLeapYear(y)
  {
    if m == 2 then (if IsLeapYear(y) then 29 else 28)
    else if m == 4 || m == 6 || m == 9 || m == 11 then 30
    else 31
  }

  /** `datetime.date` accepts exactly these: years 1 to 9999 and real calendar days. */
  predicate ValidDate(d: Date) {
    1 <= d.year <= 9999 && 1 <= d.month <= 12 && 1 <= d.day <= DaysInMonth(d.year, d.month)
  }

  predicate ValidDateTime(t: DateTime) {
    ValidDate(t.date) && 0 <= t.hour < 24 && 0 <= t.minute < 60
  }

  /** A `datetime` object at minute precision: only valid ones can exist. */
  type Moment = t: DateTime | ValidDateTime(t) witness DateTime(Date(1, 1, 1), 0, 0)

  function DaysInYear(y: int): nat {
    if IsLeapYear(y) then 366 else 365
  }

  function DaysBeforeYear(y: int): nat
    requires 1 <= y
  {
    if y == 1 then 0 else DaysBeforeYear(y - 1) + DaysInYear(y - 1)
  }

  function DaysBeforeMonth(y: int, m: int): nat
    requires 1 <= m <= 12
  {
    if m == 1 then 0 else DaysBeforeMonth(y, m - 1) + DaysInMonth(y, m - 1)
  }

  /** `date.toordinal()`: 0001-01-01 is day 1. */
  function Ordinal(d: Date): int
    requires ValidDate(d)
  {
    DaysBeforeYear(d.year) + DaysBeforeMonth(d.year, d.month) + d.day
  }

  lemma DaysBeforeDecember(y: int)
    ensures DaysBeforeMonth(y, 12) + 31 == DaysInYear(y)
  {
    assert DaysBeforeMonth(y, 2) == 31;
    assert DaysBeforeMonth(y, 3) == 31 + DaysInMonth(y, 2);
    assert DaysBeforeMonth(y, 4) == 62 + DaysInMonth(y, 2);
    assert DaysBeforeMonth(y, 5) == 92 + DaysInMonth(y, 2);
    assert DaysBeforeMonth(y, 6) == 123 + DaysInMonth(y, 2);
    assert DaysBeforeMonth(y, 7) == 153 + DaysInMonth(y, 2);
    assert DaysBeforeMonth(y, 8) == 184 + DaysInMonth(y, 2);
    assert DaysBeforeMonth(y, 9) == 215 + DaysInMonth(y, 2);
    assert DaysBeforeMonth(y, 10) == 245 + DaysInMonth(y, 2);
    assert DaysBeforeMonth(y, 11) == 276 + DaysInMonth(y, 2);
  }

  /** The first representable day, which has no previous day (`OverflowError` in Python). */
  predicate IsFirstDay(d: Date) {
    d.year == 1 && d.month == 1 && d.day == 1
  }

  /** `d - timedelta(days=1)`: the valid date whose ordinal is one less. */
  function PreviousDay(d: Date): (p: Date)
    requires ValidDate(d) && !IsFirstDay(d)
    ensures ValidDate(p) && Ordinal(p) == Ordinal(d) - 1
  {
    if d.day > 1 then Date(d.year, d.month, d.day - 1)
    else if d.month > 1 then Date(d.year, d.month - 1, DaysInMonth(d.year, d.month - 1))
    else
      DaysBeforeDecember(d.year - 1);
      Date(d.year - 1, 12, 31)
  }

  /** A number below 100 as two digits, zero-padded (`%m`, `%d`, `%H`, `%M`). */
  function Pad2(n: int): (s: string)
    requires 0 <= n < 100
    ensures |s| == 2 && IsDigit(s[0]) && IsDigit(s[1])
    ensures 10 * DigitValue(s[0]) + DigitValue(s[1]) == n
  {
    [DigitChar(n / 10), DigitChar(n % 10)]
  }

  /** A year as four digits, zero-padded (`%Y`). */
  function Pad4(n: int): (s: string)
    requires 0 <= n < 10000
    ensures |s| == 4 && forall i | 0 <= i < 4 :: IsDigit(s[i])
    ensures 1000 * DigitValue(s[0]) + 100 * DigitValue(s[1]) + 10 * DigitValue(s[2]) + DigitValue(s[3]) == n
  {
    Pad2(n / 100) + Pad2(n % 100)
  }

  /** `strftime("%Y-%m-%d")`. */
  function FormatDate(d: Date): (s: string)
    requires ValidDate(d)
    ensures |s| == 10 && s[4] == '-' && s[7] == '-'
    ensures forall i | 0 <= i < 10 && i != 4 && i != 7 :: IsDigit(s[i])
  {
    Pad4(d.year) + "-" + Pad2(d.month) + "-" + Pad2(d.day)
  }

  /** `strftime("%Y-%m-%d %H:%M")`. */
  function FormatDateTime(t: DateTime): (s: string)
    requires ValidDateTime(t)
    ensures |s| == 16 && s[..10] == FormatDate(t.date) && s[10] == ' ' && s[13] == ':'
    ensures IsDigit(s[11]) && IsDigit(s[12]) && IsDigit(s[14]) && IsDigit(s[15])
  {
    FormatDate(t.date) + " " + Pad2(t.hour) + ":" + Pad2(t.minute)
  }

  // ---------------------------------------------------------------------------
  // strptime. CPython's `_strptime` turns each directive into a regex group and the
  // space of the format into `\s+`, matches at the start of the text, then demands
  // that no text remains and builds a `date`, which rejects impossible days. The
  // groups below are those regexes: each alternative list is tried in order, and
  // since every separator that follows a group is a non-digit, a shorter alternative
  // can never succeed where a longer one has failed, so the first alternative that
  // matches is the one the regex engine keeps.
  // ---------------------------------------------------------------------------

  /** One matched directive: its numeric value and the index just after it. */
  datatype Field = Field(value: int, end: nat)

  predicate CharAt(s: string, i: int, c: char) {
    0 <= i < |s| && s[i] == c
  }

  predicate DigitAt(s: string, i: int) {
    0 <= i < |s| && IsDigit(s[i])
  }

  predicate DigitInAt(s: string, i: int, lo: char, hi: char) {
    0 <= i < |s| && lo <= s[i] <= hi
  }

  function TwoDigits(s: string, i: nat): int
    requires DigitAt(s, i) && DigitAt(s, i + 1)
  {
    10 * DigitValue(s[i]) + DigitValue(s[i + 1])
  }

  /** `%Y`: `\d\d\d\d`. */
  function YearAt(s: string, i: nat): (f: Option<Field>)
    ensures f.Some? ==> f.value.end == i + 4 <= |s| && 0 <= f.value.value <= 9999
  {
    if DigitAt(s, i) && DigitAt(s, i + 1) && DigitAt(s, i + 2) && DigitAt(s, i + 3)
    then Some(Field(100 * TwoDigits(s, i) + TwoDigits(s, i + 2), i + 4))
    else None
  }

  /** `%m`: `1[0-2]|0[1-9]|[1-9]`. */
  function MonthAt(s: string, i: nat): (f: Option<Field>)
    ensures f.Some? ==> i < f.value.end <= |s| && 1 <= f.value.value <= 12
  {
    if CharAt(s, i, '1') && DigitInAt(s, i + 1, '0', '2') then Some(Field(TwoDigits(s, i), i + 2))
    else if CharAt(s, i, '0') && DigitInAt(s, i + 1, '1', '9') then Some(Field(TwoDigits(s, i), i + 2))
    else if DigitInAt(s, i, '1', '9') then Some(Field(DigitValue(s[i]), i + 1))
    else None
  }

  /** `%d`: `3[01]|[12]\d|0[1-9]|[1-9]| [1-9]`. */
  function DayAt(s: string, i: nat): (f: Option<Field>)
    ensures f.Some? ==> i < f.value.end <= |s| && 1 <= f.value.value <= 31
  {
    if CharAt(s, i, '3') && DigitInAt(s, i + 1, '0', '1') then Some(Field(TwoDigits(s, i), i + 2))
    else if DigitInAt(s, i, '1', '2') && DigitAt(s, i + 1) then Some(Field(TwoDigits(s, i), i + 2))
    else if CharAt(s, i, '0') && DigitInAt(s, i + 1, '1', '9') then Some(Field(TwoDigits(s, i), i + 2))
    else if DigitInAt(s, i, '1', '9') then Some(Field(DigitValue(s[i]), i + 1))
    else if CharAt(s, i, ' ') && DigitInAt(s, i + 1, '1', '9') then Some(Field(DigitValue(s[i + 1]), i + 2))
    else None
  }

  /** `%H`: `2[0-3]|[0-1]\d|\d`. */
  function HourAt(s: string, i: nat): (f: Option<Field>)
    ensures f.Some? ==> i < f.value.end <= |s| && 0 <= f.value.value <= 23
  {
    if CharAt(s, i, '2') && DigitInAt(s, i + 1, '0', '3') then Some(Field(TwoDigits(s, i), i + 2))
    else if DigitInAt(s, i, '0', '1') && DigitAt(s, i + 1) then Some(Field(TwoDigits(s, i), i + 2))
    else if DigitAt(s, i) then Some(Field(DigitValue(s[i]), i + 1))
    else None
  }

  /** `%M`: `[0-5]\d|\d`. */
  function MinuteAt(s: string, i: nat): (f: Option<Field>)
    ensures f.Some? ==> i < f.value.end <= |s| && 0 <= f.value.value <= 59
  {
    if DigitInAt(s, i, '0', '5') && DigitAt(s, i + 1) then Some(Field(TwoDigits(s, i), i + 2))
    else if DigitAt(s, i) then Some(Field(DigitValue(s[i]), i + 1))
    else None
  }

  /** The regex of "%Y-%m-%d" matched at the start of `s`: the fields and where the match ends. */
  function DatePrefix(s: string): (r: Option<(Date, nat)>)
    ensures r.Some? ==> r.value.1 <= |s|
  {
    var y := YearAt(s, 0);
    if y.None? || !CharAt(s, y.value.end, '-') then None
    else
      var m := MonthAt(s, y.value.end + 1);
      if m.None? || !CharAt(s, m.value.end, '-') then None
      else
        var d := DayAt(s, m.value.end + 1);
        if d.None? then None
        else Some((Date(y.value.value, m.value.value, d.value.value), d.value.end))
  }

  /** `datetime.strptime(s, "%Y-%m-%d")`, with `None` for its `ValueError`. */
  function ParseDate(s: string): (r: Option<DateTime>)
    ensures r.Some? ==> ValidDateTime(r.value) && r.value.hour == 0 && r.value.minute == 0
  {
    var p := DatePrefix(s);
    if p.Some? && p.value.1 == |s| && ValidDate(p.value.0) then Some(DateTime(p.value.0, 0, 0))
    else None
  }

  /** `datetime.strptime(s, "%Y-%m-%d %H:%M")`, with `None` for its `ValueError`. */
  function ParseDateTime(s: string): (r: Option<DateTime>)
    ensures r.Some? ==> ValidDateTime(r.value)
  {
    var p := DatePrefix(s);
    if p.None? then None
    else
      var sp := SpacesFrom(s, p.value.1);
      var h := HourAt(s, p.value.1 + sp);
      if sp == 0 || h.None? || !CharAt(s, h.value.end, ':') then None
      else
        var mi := MinuteAt(s, h.value.end + 1);
        if mi.Some? && mi.value.end == |s| && ValidDate(p.value.0)
        then Some(DateTime(p.value.0, h.value.value, mi.value.value))
        else None
  }

  lemma {:induction false} PrefixAgrees(a: string, b: string, i: nat)
    requires |a| <= |b| && b[..|a|] == a && i < |a|
    ensures b[i] == a[i]
  {
    assert b[..|a|][i] == b[i];
  }

  /** The date fields of a formatted date are read back by the "%Y-%m-%d" regex. */
  lemma DatePrefixOfFormatted(d: Date, s: string)
    requires ValidDate(d) && |s| >= 10 && s[..10] == FormatDate(d)
    ensures DatePrefix(s) == Some((d, 10))
  {
    var f := FormatDate(d);
    var y, m, dd := Pad4(d.year), Pad2(d.month), Pad2(d.day);
    assert f == y + "-" + m + "-" + dd;
    forall i | 0 <= i < 10 ensures s[i] == f[i] {
      PrefixAgrees(f, s, i);
    }
    assert s[5] == m[0] && s[6] == m[1] && s[8] == dd[0] && s[9] == dd[1];
    assert YearAt(s, 0) == Some(Field(d.year, 4));
    assert MonthAt(s, 5) == Some(Field(d.month, 7));
    assert DayAt(s, 8) == Some(Field(d.day, 10));
  }

  /** `strptime("%Y-%m-%d")` reads back what `strftime("%Y-%m-%d")` wrote. */
  lemma ParseFormattedDate(d: Date)
    requires ValidDate(d)
    ensures ParseDate(FormatDate(d)) == Some(DateTime(d, 0, 0))
  {
    var s := FormatDate(d);
    assert s[..10] == s;
    DatePrefixOfFormatted(d, s);
  }

  /** `strptime("%Y-%m-%d %H:%M")` reads back what `strftime("%Y-%m-%d %H:%M")` wrote. */
  lemma ParseFormattedDateTime(t: DateTime)
    requires ValidDateTime(t)
    ensures ParseDateTime(FormatDateTime(t)) == Some(t)
  {
    var s := FormatDateTime(t);
    DatePrefixOfFormatted(t.date, s);
    var h, mi := Pad2(t.hour), Pad2(t.minute);
    assert s == FormatDate(t.date) + " " + h + ":" + mi;
    assert s[11] == h[0] && s[12] == h[1] && s[14] == mi[0] && s[15] == mi[1];
    assert SpacesFrom(s, 11) == 0;
    assert SpacesFrom(s, 10) == 1;
    assert HourAt(s, 11) == Some(Field(t.hour, 13));
    assert MinuteAt(s, 14) == Some(Field(t.minute, 16));
  }

  /** A formatted date-time is not a bare date: the "%Y-%m-%d" parse leaves its time unconverted. */
  lemma ParseDateRejectsDateTime(t: DateTime)
    requires ValidDateTime(t)
    ensures ParseDate(FormatDateTime(t)) == None
  {
    DatePrefixOfFormatted(t.date, FormatDateTime(t));
  }
}
