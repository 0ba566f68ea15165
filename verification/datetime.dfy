/** Python's naive `datetime`: the record, its field-by-field ordering, the
    microsecond instant used for `now - timedelta(days=n)`, and the three
    renderings and two parsers the backup code uses. */
module DateTimes {
  import opened Wrappers
  import opened Text

  datatype DateTime = DateTime(year: int, month: int, day: int,
                               hour: int, minute: int, second: int, microsecond: int)

  predicate IsLeap(y: int) {
    y % 4 == 0 && (y % 100 != 0 || y % 400 == 0)
  }

  function DaysInMonth(y: int, m: int): int
    requires 1 <= m <= 12
  {
    if m == 2 then (if IsLeap(y) then 29 else 28)
    else if m == 4 || m == 6 || m == 9 || m == 11 then 30
    else 31
  }

  function DaysInYear(y: int): int {
    if IsLeap(y) then 366 else 365
  }

  /** The range `datetime` accepts: MINYEAR = 1, MAXYEAR = 9999. */
  predicate Valid(d: DateTime) {
    && 1 <= d.year <= 9999
    && 1 <= d.month <= 12
    && 1 <= d.day <= DaysInMonth(d.year, d.month)
    && 0 <= d.hour < 24 && 0 <= d.minute < 60 && 0 <= d.second < 60
    && 0 <= d.microsecond < 1000000
  }

  function Fields(d: DateTime): seq<int> {
    [d.year, d.month, d.day, d.hour, d.minute, d.second, d.microsecond]
  }

  /** Strict lexicographic order on equally long integer tuples. */
  predicate LexLess(a: seq<int>, b: seq<int>)
    requires |a| == |b|
  {
    |a| > 0 && (a[0] < b[0] || (a[0] == b[0] && LexLess(a[1..], b[1..])))
  }

  /** `a < b` on naive datetimes: tuple comparison of the seven fields. */
  predicate Before(a: DateTime, b: DateTime) {
    LexLess(Fields(a), Fields(b))
  }

  /** Days in the years before `y` (proleptic Gregorian, year 1 first). */
  function DaysBeforeYear(y: int): int
    requires y >= 1
  {
    var p := y - 1;
    p * 365 + p / 4 - p / 100 + p / 400
  }

  /** Days in the months of `y` before `m`. */
  function DaysBeforeMonth(y: int, m: int): int
    requires 1 <= m <= 12
  {
    var base :=
      if m == 1 then 0 else if m == 2 then 31 else if m == 3 then 59
      else if m == 4 then 90 else if m == 5 then 120 else if m == 6 then 151
      else if m == 7 then 181 else if m == 8 then 212 else if m == 9 then 243
      else if m == 10 then 273 else if m == 11 then 304 else 334;
    if m > 2 && IsLeap(y) then base + 1 else base
  }

  /** `date.toordinal()`: 0001-01-01 is day 1. */
  function Ordinal(d: DateTime): int
    requires Valid(d)
  {
    DaysBeforeYear(d.year) + DaysBeforeMonth(d.year, d.month) + d.day
  }

  const DayMicros := 86400000000

  function TimeOfDay(d: DateTime): int {
    ((d.hour * 60 + d.minute) * 60 + d.second) * 1000000 + d.microsecond
  }

  /** Microseconds since 0001-01-01 00:00 minus one day; the measure
      `timedelta` arithmetic works on. */
  function Instant(d: DateTime): int
    requires Valid(d)
  {
    Ordinal(d) * DayMicros + TimeOfDay(d)
  }

  const MinInstant := DayMicros
  const MaxInstant := 3652059 * DayMicros + DayMicros - 1

  lemma InstantRange(d: DateTime)
    requires Valid(d)
    ensures MinInstant <= Instant(d) <= MaxInstant
  {
    DaysBeforeYearStep(d.year);
    DaysBeforeYearMono(d.year, 9999);
    assert DaysBeforeYear(9999) + DaysInYear(9999) == 3652059;
  }

  lemma DaysBeforeYearStep(y: int)
    requires y >= 1
    ensures DaysBeforeYear(y + 1) == DaysBeforeYear(y) + DaysInYear(y)
  {
    var p := y - 1;
    assert (p + 1) / 4 == p / 4 + (if y % 4 == 0 then 1 else 0);
    assert (p + 1) / 100 == p / 100 + (if y % 100 == 0 then 1 else 0);
    assert (p + 1) / 400 == p / 400 + (if y % 400 == 0 then 1 else 0);
  }

  lemma {:induction false} DaysBeforeYearMono(y1: int, y2: int)
    requires 1 <= y1 <= y2
    ensures DaysBeforeYear(y1) + 365 * (y2 - y1) <= DaysBeforeYear(y2)
    decreases y2 - y1
  {
    if y1 < y2 {
      DaysBeforeYearStep(y1);
      DaysBeforeYearMono(y1 + 1, y2);
    }
  }

  /** A valid date's day of the year lies in 1..DaysInYear. */
  lemma DayOfYearBounds(d: DateTime)
    requires Valid(d)
    ensures 1 <= DaysBeforeMonth(d.year, d.month) + d.day <= DaysInYear(d.year)
  {
  }

  lemma DaysBeforeMonthMono(y: int, m1: int, m2: int)
    requires 1 <= m1 < m2 <= 12
    ensures DaysBeforeMonth(y, m1) + DaysInMonth(y, m1) <= DaysBeforeMonth(y, m2)
  {
  }

  lemma OrdinalMono(a: DateTime, b: DateTime)
    requires Valid(a) && Valid(b)
    requires a.year < b.year
          || (a.year == b.year && a.month < b.month)
          || (a.year == b.year && a.month == b.month && a.day < b.day)
    ensures Ordinal(a) < Ordinal(b)
  {
    if a.year < b.year {
      DayOfYearBounds(a);
      DaysBeforeYearStep(a.year);
      DaysBeforeYearMono(a.year + 1, b.year);
    } else if a.month < b.month {
      DaysBeforeMonthMono(a.year, a.month, b.month);
    }
  }

  /** A strict lexicographic comparison is decided at one position: the
      prefixes before it agree and the entries there differ. */
  lemma {:induction false} LexLessAt(a: seq<int>, b: seq<int>) returns (k: nat)
    requires |a| == |b| && LexLess(a, b)
    ensures k < |a| && a[..k] == b[..k] && a[k] < b[k]
  {
    if a[0] < b[0] {
      k := 0;
    } else {
      var j := LexLessAt(a[1..], b[1..]);
      k := j + 1;
      assert a[..k] == [a[0]] + a[1..][..j];
      assert b[..k] == [b[0]] + b[1..][..j];
    }
  }

  /** Field-by-field order implies instant order. */
  lemma BeforeInstant(a: DateTime, b: DateTime)
    requires Valid(a) && Valid(b) && Before(a, b)
    ensures Instant(a) < Instant(b)
  {
    var fa, fb := Fields(a), Fields(b);
    var k := LexLessAt(fa, fb);
    forall i | 0 <= i < k
      ensures fa[i] == fb[i]
    {
      assert fa[..k][i] == fb[..k][i];
    }
    if k == 0 {
      OrdinalMono(a, b);
    } else if k == 1 {
      assert fa[0] == fb[0];
      OrdinalMono(a, b);
    } else if k == 2 {
      assert fa[0] == fb[0] && fa[1] == fb[1];
      OrdinalMono(a, b);
    } else {
      assert fa[0] == fb[0] && fa[1] == fb[1] && fa[2] == fb[2];
      assert Ordinal(a) == Ordinal(b);
      if k >= 4 { assert fa[3] == fb[3]; }
      if k >= 5 { assert fa[4] == fb[4]; }
      if k >= 6 { assert fa[5] == fb[5]; }
      assert TimeOfDay(a) < TimeOfDay(b);
    }
  }

  lemma {:induction false} LexTotal(a: seq<int>, b: seq<int>)
    requires |a| == |b|
    ensures LexLess(a, b) || LexLess(b, a) || a == b
  {
    if |a| > 0 && a[0] == b[0] {
      LexTotal(a[1..], b[1..]);
      if a[1..] == b[1..] {
        assert a == [a[0]] + a[1..] && b == [b[0]] + b[1..];
      }
    }
  }

  /** On valid datetimes, Python's comparison and the instant order agree, so
      sorting or filtering by `Instant` is sorting or filtering by `<`. */
  lemma {:induction false} BeforeIffInstant(a: DateTime, b: DateTime)
    requires Valid(a) && Valid(b)
    ensures Before(a, b) <==> Instant(a) < Instant(b)
  {
    LexTotal(Fields(a), Fields(b));
    if Before(a, b) {
      BeforeInstant(a, b);
    } else if Before(b, a) {
      BeforeInstant(b, a);
    }
  }

  // ----- rendering -----

  /** `%02d`. */
  function Pad2(n: nat): (r: string)
    requires n < 100
    ensures |r| == 2 && IsDigits(r) && DecimalValue(r) == n
  {
    var r := [DigitChar(n / 10), DigitChar(n % 10)];
    assert r[..1] == [DigitChar(n / 10)] && r[..1][..0] == [];
    assert DecimalValue(r[..1]) == n / 10;
    r
  }

  /** `strftime("%Y%m%d_%H%M%S")`; `%Y` is not zero-padded below year 1000. */
  function CompactStamp(d: DateTime): string
    requires Valid(d)
  {
    Decimal(d.year) + Pad2(d.month) + Pad2(d.day) + "_"
      + Pad2(d.hour) + Pad2(d.minute) + Pad2(d.second)
  }

  /** `strftime("%Y-%m-%d_%H-%M-%S")`. */
  function FileStamp(d: DateTime): string
    requires Valid(d)
  {
    Decimal(d.year) + "-" + Pad2(d.month) + "-" + Pad2(d.day) + "_"
      + Pad2(d.hour) + "-" + Pad2(d.minute) + "-" + Pad2(d.second)
  }

  /** `strftime("%Y-%m-%d %H:%M:%S")`. */
  function DisplayStamp(d: DateTime): string
    requires Valid(d)
  {
    Decimal(d.year) + "-" + Pad2(d.month) + "-" + Pad2(d.day) + " "
      + Pad2(d.hour) + ":" + Pad2(d.minute) + ":" + Pad2(d.second)
  }

  /** `isoformat()`: the year always has four digits, and ".ffffff" is
      present only when the microsecond is not zero. */
  function IsoFormat(d: DateTime): string
    requires Valid(d)
  {
    IsoHead(d) + (if d.microsecond != 0 then "." + ZeroPad(d.microsecond, 6) else "")
  }

  /** The "YYYY-MM-DDTHH:MM:SS" part of `isoformat()`. */
  function IsoHead(d: DateTime): string
    requires Valid(d)
  {
    ZeroPad(d.year, 4) + "-" + Pad2(d.month) + "-" + Pad2(d.day) + "T"
      + Pad2(d.hour) + ":" + Pad2(d.minute) + ":" + Pad2(d.second)
  }

  /** The same moment with the microseconds dropped, which is what a
      rendering without `%f` keeps. */
  function TruncateToSecond(d: DateTime): DateTime {
    d.(microsecond := 0)
  }

  // ----- parsing -----

  predicate DigitsAt(s: string, lo: nat, hi: nat)
    requires lo <= hi <= |s|
  {
    forall i :: lo <= i < hi ==> IsAsciiDigit(s[i])
  }

  /** `datetime.fromisoformat` on the two shapes `isoformat` produces:
      "YYYY-MM-DDTHH:MM:SS" and "YYYY-MM-DDTHH:MM:SS.ffffff". */
  function ParseIso(s: string): (r: Option<DateTime>)
    ensures r.Some? ==> Valid(r.value)
  {
    if !(|s| == 19 || (|s| == 26 && s[19] == '.' && DigitsAt(s, 20, 26))) then None
    else if !(s[4] == '-' && s[7] == '-' && s[10] == 'T' && s[13] == ':' && s[16] == ':') then None
    else if !(DigitsAt(s, 0, 4) && DigitsAt(s, 5, 7) && DigitsAt(s, 8, 10)
              && DigitsAt(s, 11, 13) && DigitsAt(s, 14, 16) && DigitsAt(s, 17, 19)) then None
    else
      var d := DateTime(DecimalValue(s[0..4]), DecimalValue(s[5..7]), DecimalValue(s[8..10]),
                        DecimalValue(s[11..13]), DecimalValue(s[14..16]), DecimalValue(s[17..19]),
                        if |s| == 26 then DecimalValue(s[20..26]) else 0);
      if Valid(d) then Some(d) else None
  }

  /** The first 19 characters of `s` spell the date and time of `d` the way
      `fromisoformat` reads them. */
  predicate HeadSpells(s: string, d: DateTime)
    requires |s| >= 19
  {
    && s[4] == '-' && s[7] == '-' && s[10] == 'T' && s[13] == ':' && s[16] == ':'
    && DigitsAt(s, 0, 4) && DigitsAt(s, 5, 7) && DigitsAt(s, 8, 10)
    && DigitsAt(s, 11, 13) && DigitsAt(s, 14, 16) && DigitsAt(s, 17, 19)
    && DecimalValue(s[0..4]) == d.year && DecimalValue(s[5..7]) == d.month
    && DecimalValue(s[8..10]) == d.day && DecimalValue(s[11..13]) == d.hour
    && DecimalValue(s[14..16]) == d.minute && DecimalValue(s[17..19]) == d.second
  }

  lemma IsoHeadSpells(d: DateTime)
    requires Valid(d)
    ensures |IsoHead(d)| == 19 && HeadSpells(IsoHead(d), d)
  {
    var y, mo, dd := ZeroPad(d.year, 4), Pad2(d.month), Pad2(d.day);
    var h, mi, se := Pad2(d.hour), Pad2(d.minute), Pad2(d.second);
    assert |y| == 4;
    IsoLayout(y, mo, dd, h, mi, se);
    var head := IsoHead(d);
    assert head == y + "-" + mo + "-" + dd + "T" + h + ":" + mi + ":" + se;
    DigitsIn(head, 0, 4, y);
    DigitsIn(head, 5, 7, mo);
    DigitsIn(head, 8, 10, dd);
    DigitsIn(head, 11, 13, h);
    DigitsIn(head, 14, 16, mi);
    DigitsIn(head, 17, 19, se);
  }

  /** Where the fields and separators of "YYYY-MM-DDTHH:MM:SS" sit. */
  lemma IsoLayout(y: string, mo: string, dd: string, h: string, mi: string, se: string)
    requires |y| == 4 && |mo| == 2 && |dd| == 2 && |h| == 2 && |mi| == 2 && |se| == 2
    ensures var head := y + "-" + mo + "-" + dd + "T" + h + ":" + mi + ":" + se;
      && |head| == 19
      && head[0..4] == y && head[5..7] == mo && head[8..10] == dd
      && head[11..13] == h && head[14..16] == mi && head[17..19] == se
      && head[4] == '-' && head[7] == '-' && head[10] == 'T' && head[13] == ':' && head[16] == ':'
  {
  }

  /** A slice that equals a string of digits is all digits. */
  lemma DigitsIn(s: string, lo: nat, hi: nat, t: string)
    requires lo <= hi <= |s| && s[lo..hi] == t && IsDigits(t)
    ensures DigitsAt(s, lo, hi)
  {
    forall i | lo <= i < hi
      ensures IsAsciiDigit(s[i])
    {
      assert s[i] == t[i - lo];
    }
  }

  /** Text after the first 19 characters does not disturb them. */
  lemma HeadSpellsExtended(head: string, tail: string, d: DateTime)
    requires |head| == 19 && HeadSpells(head, d)
    ensures HeadSpells(head + tail, d)
  {
    var s := head + tail;
    assert s[0..4] == head[0..4] && s[5..7] == head[5..7] && s[8..10] == head[8..10];
    assert s[11..13] == head[11..13] && s[14..16] == head[14..16] && s[17..19] == head[17..19];
  }

  /** The two shapes of `isoformat()`: nineteen characters spelling the
      date and time, followed, exactly when the microsecond is not zero, by
      '.' and six digits holding it. */
  lemma IsoFormatShape(d: DateTime)
    requires Valid(d)
    ensures var s := IsoFormat(d);
      && |s| == (if d.microsecond != 0 then 26 else 19)
      && HeadSpells(s, d)
      && (d.microsecond != 0 ==> s[19] == '.' && DigitsAt(s, 20, 26) && DecimalValue(s[20..26]) == d.microsecond)
  {
    var head := IsoHead(d);
    IsoHeadSpells(d);
    var s := IsoFormat(d);
    if d.microsecond != 0 {
      var f := ZeroPad(d.microsecond, 6);
      assert |f| == 6;
      assert s == head + ("." + f);
      HeadSpellsExtended(head, "." + f, d);
      assert s[19] == '.' && s[20..26] == f;
      assert DigitsAt(s, 20, 26);
    } else {
      assert s == head;
    }
  }

  /** `fromisoformat(isoformat(d)) == d`. */
  lemma IsoRoundTrip(d: DateTime)
    requires Valid(d)
    ensures ParseIso(IsoFormat(d)) == Some(d)
  {
    var head := IsoHead(d);
    IsoHeadSpells(d);
    var s := IsoFormat(d);
    if d.microsecond != 0 {
      var f := ZeroPad(d.microsecond, 6);
      assert |f| == 6;
      assert s == head + ("." + f);
      HeadSpellsExtended(head, "." + f, d);
      assert s[19] == '.' && s[20..26] == f;
      assert DigitsAt(s, 20, 26);
    } else {
      assert s == head;
    }
  }

  /** Each `strptime` field is matched by a small regular expression; these
      predicates follow those alternatives when the field runs up to the next
      separator, with `\d` read as an ASCII digit only. */
  predicate YearField(t: string) {
    |t| == 4 && IsDigits(t)
  }

  /** `1[0-2]|0[1-9]|[1-9]` */
  predicate MonthField(t: string) {
    || (|t| == 2 && t[0] == '1' && '0' <= t[1] <= '2')
    || (|t| == 2 && t[0] == '0' && '1' <= t[1] <= '9')
    || (|t| == 1 && '1' <= t[0] <= '9')
  }

  /** `3[01]|[12]\d|0[1-9]|[1-9]| [1-9]` */
  predicate DayField(t: string) {
    || (|t| == 2 && t[0] == '3' && '0' <= t[1] <= '1')
    || (|t| == 2 && '1' <= t[0] <= '2' && IsAsciiDigit(t[1]))
    || (|t| == 2 && t[0] == '0' && '1' <= t[1] <= '9')
    || (|t| == 1 && '1' <= t[0] <= '9')
    || (|t| == 2 && t[0] == ' ' && '1' <= t[1] <= '9')
  }

  /** `2[0-3]|[0-1]\d|\d` */
  predicate HourField(t: string) {
    || (|t| == 2 && t[0] == '2' && '0' <= t[1] <= '3')
    || (|t| == 2 && '0' <= t[0] <= '1' && IsAsciiDigit(t[1]))
    || (|t| == 1 && IsAsciiDigit(t[0]))
  }

  /** `[0-5]\d|\d`; for seconds the pattern also admits 60 and 61, which the
      `datetime` constructor then rejects, so they are left out here. */
  predicate SixtyField(t: string) {
    || (|t| == 2 && '0' <= t[0] <= '5' && IsAsciiDigit(t[1]))
    || (|t| == 1 && IsAsciiDigit(t[0]))
  }

  /** `int(t)` for a field accepted above (a leading space is allowed). */
  function FieldValue(t: string): nat
    requires 1 <= |t| <= 4
    requires t[0] == ' ' ==> |t| == 2 && IsAsciiDigit(t[1])
    requires t[0] != ' ' ==> IsDigits(t)
  {
    if t[0] == ' ' then DigitValue(t[1]) else DecimalValue(t)
  }

  lemma OneDigit(t: string)
    requires |t| == 1 && IsAsciiDigit(t[0])
    ensures DecimalValue(t) == DigitValue(t[0])
  {
    assert t[..0] == [];
    assert DecimalValue(t[..0]) == 0;
  }

  lemma TwoDigits(t: string)
    requires |t| == 2 && IsDigits(t)
    ensures DecimalValue(t) == DigitValue(t[0]) * 10 + DigitValue(t[1])
  {
    assert t[..1][..0] == [] && t[..1][0] == t[0];
    assert DecimalValue(t[..1]) == DigitValue(t[0]);
  }

  /** The values the field patterns admit. */
  lemma MonthBounds(t: string)
    requires MonthField(t)
    ensures 1 <= FieldValue(t) <= 12
  {
    if |t| == 1 {
      OneDigit(t);
    } else {
      assert IsDigits(t) by { assert IsAsciiDigit(t[0]) && IsAsciiDigit(t[1]); }
      TwoDigits(t);
    }
  }

  lemma DayBounds(t: string)
    requires DayField(t)
    ensures 1 <= FieldValue(t) <= 31
  {
    if |t| == 1 {
      OneDigit(t);
    } else if t[0] != ' ' {
      assert IsDigits(t) by { assert IsAsciiDigit(t[0]) && IsAsciiDigit(t[1]); }
      TwoDigits(t);
    }
  }

  lemma HourBounds(t: string)
    requires HourField(t)
    ensures FieldValue(t) < 24
  {
    if |t| == 1 {
      OneDigit(t);
    } else {
      assert IsDigits(t) by { assert IsAsciiDigit(t[0]) && IsAsciiDigit(t[1]); }
      TwoDigits(t);
    }
  }

  lemma SixtyBounds(t: string)
    requires SixtyField(t)
    ensures FieldValue(t) < 60
  {
    if |t| == 1 {
      OneDigit(t);
    } else {
      assert IsDigits(t) by { assert IsAsciiDigit(t[0]) && IsAsciiDigit(t[1]); }
      TwoDigits(t);
    }
  }

  lemma YearBounds(t: string)
    requires YearField(t)
    ensures FieldValue(t) <= 9999
  {
    DecimalValueBound(t);
  }

  /** `datetime.strptime(s, "%Y-%m-%d_%H-%M-%S")`: four-digit year, one- or
      two-digit other fields, day-of-month checked, no trailing text. */
  function ParseStamp(s: string): (r: Option<DateTime>)
    ensures r.Some? ==> Valid(r.value) && r.value.microsecond == 0
  {
    var halves := Split(s, '_');
    if |halves| != 2 then None
    else
      var date, time := Split(halves[0], '-'), Split(halves[1], '-');
      if |date| != 3 || |time| != 3 then None
      else StampOf(date[0], date[1], date[2], time[0], time[1], time[2])
  }

  /** The moment six separated fields denote, when each matches its pattern
      and the day exists in that month. */
  function StampOf(y: string, mo: string, dd: string, h: string, mi: string, se: string): (r: Option<DateTime>)
    ensures r.Some? ==> Valid(r.value) && r.value.microsecond == 0
  {
    if !(YearField(y) && MonthField(mo) && DayField(dd) && HourField(h) && SixtyField(mi) && SixtyField(se)) then None
    else
      YearBounds(y); MonthBounds(mo); DayBounds(dd); HourBounds(h); SixtyBounds(mi); SixtyBounds(se);
      var d := DateTime(FieldValue(y), FieldValue(mo), FieldValue(dd), FieldValue(h), FieldValue(mi), FieldValue(se), 0);
      if 1 <= d.year && d.day <= DaysInMonth(d.year, d.month) then Some(d) else None
  }

  lemma Pad2Fields(n: nat)
    requires n < 100
    ensures n < 60 ==> SixtyField(Pad2(n))
    ensures n < 24 ==> HourField(Pad2(n))
    ensures 1 <= n <= 12 ==> MonthField(Pad2(n))
    ensures 1 <= n <= 31 ==> DayField(Pad2(n))
    ensures FieldValue(Pad2(n)) == n
  {
  }

  /** Three separator-free parts joined by the separator split back apart. */
  lemma SplitThree(a: string, b: string, c: string, sep: char)
    requires sep !in a && sep !in b && sep !in c
    ensures Split(a + [sep] + b + [sep] + c, sep) == [a, b, c]
  {
    SplitAfterPart(b, c, sep);
    SplitWithoutSeparator(c, sep);
    assert a + [sep] + b + [sep] + c == a + [sep] + (b + [sep] + c);
    SplitAfterPart(a, b + [sep] + c, sep);
  }

  lemma DigitsExclude(s: string, c: char)
    requires IsDigits(s) && !IsAsciiDigit(c)
    ensures c !in s
  {
  }

  /** Parsing the file-name stamp gives back the moment it was rendered from,
      to the second, for four-digit years. */
  lemma FileStampRoundTrip(d: DateTime)
    requires Valid(d) && d.year >= 1000
    ensures ParseStamp(FileStamp(d)) == Some(TruncateToSecond(d))
  {
    var y, mo, dd := Decimal(d.year), Pad2(d.month), Pad2(d.day);
    var h, mi, se := Pad2(d.hour), Pad2(d.minute), Pad2(d.second);
    FileStampSplits(d);
    StampOfFields(d);
  }

  /** The file-name stamp splits at '_' into date and time, and each of those
      at '-' into its three fields. */
  lemma FileStampSplits(d: DateTime)
    requires Valid(d)
    ensures var y, mo, dd := Decimal(d.year), Pad2(d.month), Pad2(d.day);
      var h, mi, se := Pad2(d.hour), Pad2(d.minute), Pad2(d.second);
      var date, time := y + ['-'] + mo + ['-'] + dd, h + ['-'] + mi + ['-'] + se;
      && Split(FileStamp(d), '_') == [date, time]
      && Split(date, '-') == [y, mo, dd]
      && Split(time, '-') == [h, mi, se]
  {
    var y, mo, dd := Decimal(d.year), Pad2(d.month), Pad2(d.day);
    var h, mi, se := Pad2(d.hour), Pad2(d.minute), Pad2(d.second);
    DigitsExclude(y, '-'); DigitsExclude(mo, '-'); DigitsExclude(dd, '-');
    DigitsExclude(h, '-'); DigitsExclude(mi, '-'); DigitsExclude(se, '-');
    var date := y + ['-'] + mo + ['-'] + dd;
    var time := h + ['-'] + mi + ['-'] + se;
    assert '_' !in date by {
      DigitsExclude(y, '_'); DigitsExclude(mo, '_'); DigitsExclude(dd, '_');
    }
    assert '_' !in time by {
      DigitsExclude(h, '_'); DigitsExclude(mi, '_'); DigitsExclude(se, '_');
    }
    assert FileStamp(d) == date + ['_'] + time;
    SplitAfterPart(date, time, '_');
    SplitWithoutSeparator(time, '_');
    SplitThree(y, mo, dd, '-');
    SplitThree(h, mi, se, '-');
  }

  /** The rendered fields of a four-digit-year moment match their patterns
      and read back as that moment, to the second. */
  lemma StampOfFields(d: DateTime)
    requires Valid(d) && d.year >= 1000
    ensures StampOf(Decimal(d.year), Pad2(d.month), Pad2(d.day), Pad2(d.hour), Pad2(d.minute), Pad2(d.second))
      == Some(TruncateToSecond(d))
  {
    Pad2Fields(d.month); Pad2Fields(d.day); Pad2Fields(d.hour);
    Pad2Fields(d.minute); Pad2Fields(d.second);
    assert FieldValue(Decimal(d.year)) == d.year;
  }

  /** Two stamps "%Y%m%d_%H%M%S" of four-digit years are equal only for the same
      second: ids built from them do not collide within a base name. */
  lemma CompactStampInjective(a: DateTime, b: DateTime)
    requires Valid(a) && Valid(b) && a.year >= 1000 && b.year >= 1000
    requires CompactStamp(a) == CompactStamp(b)
    ensures TruncateToSecond(a) == TruncateToSecond(b)
  {
    CompactLayout(Decimal(a.year), Pad2(a.month), Pad2(a.day), Pad2(a.hour), Pad2(a.minute), Pad2(a.second));
    CompactLayout(Decimal(b.year), Pad2(b.month), Pad2(b.day), Pad2(b.hour), Pad2(b.minute), Pad2(b.second));
    assert Decimal(a.year) == Decimal(b.year);
    assert Pad2(a.month) == Pad2(b.month) && Pad2(a.day) == Pad2(b.day);
    assert Pad2(a.hour) == Pad2(b.hour) && Pad2(a.minute) == Pad2(b.minute);
    assert Pad2(a.second) == Pad2(b.second);
  }

  /** Where the fields of "%Y%m%d_%H%M%S" sit when the year has four digits. */
  lemma CompactLayout(y: string, mo: string, dd: string, h: string, mi: string, se: string)
    requires |y| == 4 && |mo| == 2 && |dd| == 2 && |h| == 2 && |mi| == 2 && |se| == 2
    ensures var s := y + mo + dd + "_" + h + mi + se;
      && |s| == 15 && s[8] == '_'
      && s[0..4] == y && s[4..6] == mo && s[6..8] == dd
      && s[9..11] == h && s[11..13] == mi && s[13..15] == se
  {
  }

  /** `s` spells the moment `d`, to the second, as "%Y%m%d_%H%M%S" with a
      four-digit year: fifteen characters, '_' at index 8, digits elsewhere,
      each field holding its value. */
  predicate CompactSpells(s: string, d: DateTime) {
    && |s| == 15 && s[8] == '_'
    && DigitsAt(s, 0, 4) && DigitsAt(s, 4, 6) && DigitsAt(s, 6, 8)
    && DigitsAt(s, 9, 11) && DigitsAt(s, 11, 13) && DigitsAt(s, 13, 15)
    && DecimalValue(s[0..4]) == d.year && DecimalValue(s[4..6]) == d.month
    && DecimalValue(s[6..8]) == d.day && DecimalValue(s[9..11]) == d.hour
    && DecimalValue(s[11..13]) == d.minute && DecimalValue(s[13..15]) == d.second
  }

  /** The compact stamp of a four-digit-year moment spells that moment. */
  lemma CompactStampSpells(d: DateTime)
    requires Valid(d) && d.year >= 1000
    ensures CompactSpells(CompactStamp(d), d)
  {
    var y, mo, dd := Decimal(d.year), Pad2(d.month), Pad2(d.day);
    var h, mi, se := Pad2(d.hour), Pad2(d.minute), Pad2(d.second);
    CompactLayout(y, mo, dd, h, mi, se);
    var s := CompactStamp(d);
    assert s == y + mo + dd + "_" + h + mi + se;
    DigitsIn(s, 0, 4, y);
    DigitsIn(s, 4, 6, mo);
    DigitsIn(s, 6, 8, dd);
    DigitsIn(s, 9, 11, h);
    DigitsIn(s, 11, 13, mi);
    DigitsIn(s, 13, 15, se);
  }
}
