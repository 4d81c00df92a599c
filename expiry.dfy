/**
 * Expiry arithmetic: `datetime.strptime(expiry, "%Y%m%d%H%M%SZ")` applied to
 * a certificate's notAfter string (an X.509 GeneralizedTime, section
 * 4.1.2.5.2 of RFC 5280), Python's proleptic Gregorian day numbering, and
 * the whole-day count `(expiry_date - today).days`.
 */
module Expiry {
  import opened Wrappers

  /** A naive Python `datetime`: calendar fields and microseconds, no time zone. */
  datatype DateTime = DateTime(year: int, month: int, day: int,
                               hour: int, minute: int, second: int, microsecond: int)

  const MinYear := 1
  const MaxYear := 9999
  /** Microseconds in one day: the unit `timedelta.days` counts. */
  const DayMicros := 86_400_000_000

  predicate IsLeap(year: int) {
    year % 4 == 0 && (year % 100 != 0 || year % 400 == 0)
  }

  function DaysInMonth(year: int, month: int): (n: int)
    requires 1 <= month <= 12
    ensures 28 <= n <= 31
  {
    if month == 2 then (if IsLeap(year) then 29 else 28)
    else if month == 4 || month == 6 || month == 9 || month == 11 then 30
    else 31
  }

  predicate ValidDate(year: int, month: int, day: int) {
    MinYear <= year <= MaxYear && 1 <= month <= 12 && 1 <= day <= DaysInMonth(year, month)
  }

  /** The values `datetime` accepts; its constructor raises ValueError on anything else. */
  predicate ValidDateTime(t: DateTime) {
    && ValidDate(t.year, t.month, t.day)
    && 0 <= t.hour < 24 && 0 <= t.minute < 60 && 0 <= t.second < 60
    && 0 <= t.microsecond < 1_000_000
  }

  /** Days in the years before `year` (Python's `_days_before_year`; `/` floors for a positive divisor). */
  function DaysBeforeYear(year: int): int {
    var y := year - 1;
    y * 365 + y / 4 - y / 100 + y / 400
  }

  /** Days in the months of `year` before `month` (Python's `_days_before_month`). */
  function DaysBeforeMonth(year: int, month: int): int
    requires 1 <= month <= 12
  {
    [0, 31, 59, 90, 120, 151, 181, 212, 243, 273, 304, 334][month - 1]
      + (if month > 2 && IsLeap(year) then 1 else 0)
  }

  /** Day number with 0001-01-01 as day 1 (Python's `_ymd2ord`, `date.toordinal`). */
  function Ordinal(year: int, month: int, day: int): int
    requires 1 <= month <= 12
  {
    DaysBeforeYear(year) + DaysBeforeMonth(year, month) + day
  }

  /** The instant as microseconds since the start of day 0: what datetime subtraction compares. */
  function ToMicros(t: DateTime): int
    requires 1 <= t.month <= 12
  {
    var seconds := ((Ordinal(t.year, t.month, t.day) * 24 + t.hour) * 60 + t.minute) * 60 + t.second;
    seconds * 1_000_000 + t.microsecond
  }

  /** The calendar day after a valid date, as an independent reading of the calendar. */
  function NextDay(year: int, month: int, day: int): (r: (int, int, int))
    requires ValidDate(year, month, day)
  {
    if day < DaysInMonth(year, month) then (year, month, day + 1)
    else if month < 12 then (year, month + 1, 1)
    else (year + 1, 1, 1)
  }

  lemma DaysBeforeYearStep(year: int)
    requires year >= 1
    ensures DaysBeforeYear(year + 1) == DaysBeforeYear(year) + (if IsLeap(year) then 366 else 365)
  {
    var y := year - 1;
    assert (y + 1) / 4 == y / 4 + (if year % 4 == 0 then 1 else 0);
    assert (y + 1) / 100 == y / 100 + (if year % 100 == 0 then 1 else 0);
    assert (y + 1) / 400 == y / 400 + (if year % 400 == 0 then 1 else 0);
  }

  /**
   * The day numbering has no gaps and no repeats: the next calendar day has
   * the next ordinal, across month and year ends and leap days.
   */
  lemma OrdinalNextDay(year: int, month: int, day: int)
    requires ValidDate(year, month, day)
    ensures var (y, m, d) := NextDay(year, month, day);
      1 <= m <= 12 && Ordinal(y, m, d) == Ordinal(year, month, day) + 1
  {
    if day == DaysInMonth(year, month) && month == 12 {
      DaysBeforeYearStep(year);
    }
  }

  /** The same time of day on the next calendar day is exactly one day of microseconds later. */
  lemma NextDayIsOneDayLater(t: DateTime)
    requires ValidDateTime(t)
    ensures var (y, m, d) := NextDay(t.year, t.month, t.day);
      1 <= m <= 12 && ToMicros(t.(year := y, month := m, day := d)) == ToMicros(t) + DayMicros
  {
    OrdinalNextDay(t.year, t.month, t.day);
  }

  predicate IsDigit(c: char) {
    '0' <= c <= '9'
  }

  /** The decimal value of `s[i..i + n]` when those characters are all digits. */
  function Number(s: string, i: nat, n: nat): (r: Option<int>)
    requires i + n <= |s|
    ensures r.Some? ==> 0 <= r.value
    decreases n
  {
    if n == 0 then Some(0)
    else if !IsDigit(s[i + n - 1]) then None
    else match Number(s, i, n - 1)
      case None => None
      case Some(v) => Some(v * 10 + (s[i + n - 1] as int - '0' as int))
  }

  /** `%d` as two characters: two digits, or a space and a non-zero digit. */
  function DayField(s: string, i: nat): Option<int>
    requires i + 2 <= |s|
  {
    if s[i] == ' ' && '1' <= s[i + 1] <= '9' then Some(s[i + 1] as int - '0' as int)
    else Number(s, i, 2)
  }

  /**
   * `datetime.strptime(s, "%Y%m%d%H%M%SZ")` for the 15-character form,
   * `None` where Python raises ValueError: a non-digit field, a field out of
   * its range, a day past the end of its month, year 0, second 60 or 61, or
   * a last character other than `Z` (matched ignoring case).
   */
  function ParseGeneralizedTime(s: string): (r: Option<DateTime>)
    ensures r.Some? ==> |s| == 15 && ValidDateTime(r.value) && r.value.microsecond == 0
  {
    if |s| != 15 || !(s[14] == 'Z' || s[14] == 'z') then None
    else
      var year, month, day := Number(s, 0, 4), Number(s, 4, 2), DayField(s, 6);
      var hour, minute, second := Number(s, 8, 2), Number(s, 10, 2), Number(s, 12, 2);
      if year.None? || month.None? || day.None? || hour.None? || minute.None? || second.None? then None
      else if !ValidDate(year.value, month.value, day.value) then None
      else if !(hour.value < 24 && minute.value < 60 && second.value < 60) then None
      else Some(DateTime(year.value, month.value, day.value, hour.value, minute.value, second.value, 0))
  }

  function Digit(n: int): char
    requires 0 <= n < 10
  {
    ('0' as int + n) as char
  }

  function Pad2(n: int): string
    requires 0 <= n < 100
  {
    [Digit(n / 10), Digit(n % 10)]
  }

  /** The GeneralizedTime text OpenSSL reports for a whole-second instant. */
  function FormatGeneralizedTime(t: DateTime): (s: string)
    requires ValidDateTime(t)
    ensures |s| == 15
  {
    Pad2(t.year / 100) + Pad2(t.year % 100) + Pad2(t.month) + Pad2(t.day)
      + Pad2(t.hour) + Pad2(t.minute) + Pad2(t.second) + "Z"
  }

  lemma NumberPad2(s: string, i: nat, n: int)
    requires 0 <= n < 100 && i + 2 <= |s| && s[i..i + 2] == Pad2(n)
    ensures Number(s, i, 2) == Some(n)
  {
    assert s[i] == Digit(n / 10) && s[i + 1] == Digit(n % 10);
    assert Number(s, i, 1) == Some(n / 10);
  }

  lemma NumberPad4(s: string, i: nat, n: int)
    requires 0 <= n < 10000 && i + 4 <= |s| && s[i..i + 4] == Pad2(n / 100) + Pad2(n % 100)
    ensures Number(s, i, 4) == Some(n)
  {
    var hi, lo := n / 100, n % 100;
    assert s[i..i + 2] == Pad2(hi) && s[i + 2] == Digit(lo / 10) && s[i + 3] == Digit(lo % 10);
    NumberPad2(s, i, hi);
    assert Number(s, i, 3) == Some(hi * 10 + lo / 10);
  }

  /** Parsing what OpenSSL prints for a valid whole-second instant gives that instant back. */
  lemma ParseFormatRoundTrip(t: DateTime)
    requires ValidDateTime(t) && t.microsecond == 0
    ensures ParseGeneralizedTime(FormatGeneralizedTime(t)) == Some(t)
  {
    var s := FormatGeneralizedTime(t);
    assert s[14] == 'Z';
    NumberPad4(s, 0, t.year);
    NumberPad2(s, 4, t.month);
    NumberPad2(s, 6, t.day);
    assert s[6] == Digit(t.day / 10) && s[6] != ' ';
    NumberPad2(s, 8, t.hour);
    NumberPad2(s, 10, t.minute);
    NumberPad2(s, 12, t.second);
  }

  /**
   * The canonical spelling of a 15-character GeneralizedTime text: the two
   * variants strptime also accepts, a space-padded day and a lower-case `z`,
   * written as `0` and `Z`.
   */
  function Canonical(s: string): (r: string)
    requires |s| == 15
    ensures |r| == 15
    ensures forall i :: 0 <= i < 15 && i != 6 && i != 14 ==> r[i] == s[i]
    ensures r[6] == (if s[6] == ' ' then '0' else s[6])
    ensures r[14] == (if s[14] == 'z' then 'Z' else s[14])
  {
    s[..6] + [if s[6] == ' ' then '0' else s[6]] + s[7..14] + [if s[14] == 'z' then 'Z' else s[14]]
  }

  /** Two digits read as a number are that number written with two digits. */
  lemma Number2Spells(s: string, i: nat, v: int)
    requires i + 2 <= |s| && Number(s, i, 2) == Some(v)
    ensures v < 100 && s[i..i + 2] == Pad2(v)
  {
    var d0, d1 := s[i] as int - '0' as int, s[i + 1] as int - '0' as int;
    assert Number(s, i, 1) == Some(d0);
    assert v == d0 * 10 + d1 && 0 <= d0 < 10 && 0 <= d1 < 10;
    assert v / 10 == d0 && v % 10 == d1;
  }

  /** Four digits read as a number are that number written with four digits. */
  lemma Number4Spells(s: string, i: nat, v: int)
    requires i + 4 <= |s| && Number(s, i, 4) == Some(v)
    ensures v < 10000 && s[i..i + 4] == Pad2(v / 100) + Pad2(v % 100)
  {
    var h := Number(s, i, 2).value;
    Number2Spells(s, i, h);
    var d2, d3 := s[i + 2] as int - '0' as int, s[i + 3] as int - '0' as int;
    assert Number(s, i, 3) == Some(h * 10 + d2);
    assert v == h * 100 + d2 * 10 + d3 && 0 <= d2 < 10 && 0 <= d3 < 10;
    assert v / 100 == h && v % 100 == d2 * 10 + d3;
    assert Pad2(v % 100) == [s[i + 2], s[i + 3]];
  }

  /** The day field, read as `%d`, is the day written with two digits once a leading space becomes `0`. */
  lemma DayFieldSpells(s: string, v: int)
    requires |s| == 15 && DayField(s, 6) == Some(v)
    ensures v < 100 && Canonical(s)[6..8] == Pad2(v)
  {
    var c := Canonical(s);
    if s[6] == ' ' && '1' <= s[7] <= '9' {
      assert c[6..8] == ['0', s[7]];
    } else {
      Number2Spells(s, 6, v);
      assert c[6..8] == s[6..8];
    }
  }

  /**
   * An accepted text spells the instant it is parsed to: formatting the
   * result gives the text back, up to the spellings `Canonical` merges. So
   * strptime accepts exactly the spellings of valid instants, and raises on
   * every other text.
   */
  lemma ParseSpellsInstant(s: string)
    requires ParseGeneralizedTime(s).Some?
    ensures FormatGeneralizedTime(ParseGeneralizedTime(s).value) == Canonical(s)
  {
    var t := ParseGeneralizedTime(s).value;
    var c, f := Canonical(s), FormatGeneralizedTime(t);
    Number4Spells(s, 0, t.year);
    Number2Spells(s, 4, t.month);
    DayFieldSpells(s, t.day);
    Number2Spells(s, 8, t.hour);
    Number2Spells(s, 10, t.minute);
    Number2Spells(s, 12, t.second);
    assert c == c[0..4] + c[4..6] + c[6..8] + c[8..10] + c[10..12] + c[12..14] + c[14..];
    assert c[0..4] == s[0..4] && c[4..6] == s[4..6] && c[8..10] == s[8..10];
    assert c[10..12] == s[10..12] && c[12..14] == s[12..14] && c[14..] == "Z";
  }

  /**
   * `expiry_date_string_to_days`: whole days from `today` to the parsed
   * expiry, rounded toward negative infinity as `timedelta.days` is, so an
   * expiry in the past gives a negative count. `None` where strptime raises.
   */
  function ExpiryDateStringToDays(expiry: string, today: DateTime): (r: Option<int>)
    requires 1 <= today.month <= 12
    ensures r.Some? <==> ParseGeneralizedTime(expiry).Some?
    ensures r.Some? ==>
      var diff := ToMicros(ParseGeneralizedTime(expiry).value) - ToMicros(today);
      r.value * DayMicros <= diff < r.value * DayMicros + DayMicros
  {
    match ParseGeneralizedTime(expiry)
    case None => None
    case Some(expiryDate) => Some((ToMicros(expiryDate) - ToMicros(today)) / DayMicros)
  }

  /** The floor property determines the day count. */
  lemma FloorDaysUnique(diff: int, q: int)
    requires q * DayMicros <= diff < q * DayMicros + DayMicros
    ensures diff / DayMicros == q
  {
  }

  /**
   * Moving `today` later by whole days lowers the count by exactly that many
   * days: the count ages with the clock.
   */
  lemma DaysShiftWithClock(expiry: string, today: DateTime, later: DateTime, k: int)
    requires 1 <= today.month <= 12 && 1 <= later.month <= 12
    requires ToMicros(later) == ToMicros(today) + k * DayMicros
    requires ParseGeneralizedTime(expiry).Some?
    ensures ExpiryDateStringToDays(expiry, later).value == ExpiryDateStringToDays(expiry, today).value - k
  {
    var q := ExpiryDateStringToDays(expiry, today).value;
    var diff := ToMicros(ParseGeneralizedTime(expiry).value) - ToMicros(later);
    assert (q - k) * DayMicros <= diff < (q - k) * DayMicros + DayMicros;
    FloorDaysUnique(diff, q - k);
  }

  /** A notAfter text and the instant it names. */
  lemma ParseExample()
    ensures ParseGeneralizedTime("20200111000000Z") == Some(DateTime(2020, 1, 11, 0, 0, 0, 0))
  {
    var t := DateTime(2020, 1, 11, 0, 0, 0, 0);
    ParseFormatRoundTrip(t);
    assert FormatGeneralizedTime(t) == "20200111000000Z";
  }

  /** Exactly ten days ahead counts ten days. */
  lemma ExpiryTenDaysAhead()
    ensures ExpiryDateStringToDays("20200111000000Z", DateTime(2020, 1, 1, 0, 0, 0, 0)) == Some(10)
  {
    ParseExample();
    assert Ordinal(2020, 1, 11) == Ordinal(2020, 1, 1) + 10;
  }

  /** At the expiry instant itself the count is 0. */
  lemma ExpiryAtItsOwnInstant(s: string, t: DateTime)
    requires ParseGeneralizedTime(s) == Some(t)
    ensures ExpiryDateStringToDays(s, t) == Some(0)
  {
    FloorDaysUnique(ToMicros(t) - ToMicros(t), 0);
  }

  lemma ParseOneSecondShortExample()
    ensures ParseGeneralizedTime("20200110235959Z") == Some(DateTime(2020, 1, 10, 23, 59, 59, 0))
  {
    var t := DateTime(2020, 1, 10, 23, 59, 59, 0);
    ParseFormatRoundTrip(t);
    assert FormatGeneralizedTime(t) == "20200110235959Z";
  }

  /** One second short of ten days counts nine: the count is floored, not rounded. */
  lemma ExpiryOneSecondShort()
    ensures ExpiryDateStringToDays("20200110235959Z", DateTime(2020, 1, 1, 0, 0, 0, 0)) == Some(9)
  {
    ParseOneSecondShortExample();
    var e, t := DateTime(2020, 1, 10, 23, 59, 59, 0), DateTime(2020, 1, 1, 0, 0, 0, 0);
    assert Ordinal(2020, 1, 10) == Ordinal(2020, 1, 1) + 9;
    assert ToMicros(e) - ToMicros(t) == 10 * DayMicros - 1_000_000;
    FloorDaysUnique(ToMicros(e) - ToMicros(t), 9);
  }

  lemma ParsePastExample()
    ensures ParseGeneralizedTime("20191231120000Z") == Some(DateTime(2019, 12, 31, 12, 0, 0, 0))
  {
    var t := DateTime(2019, 12, 31, 12, 0, 0, 0);
    ParseFormatRoundTrip(t);
    assert FormatGeneralizedTime(t) == "20191231120000Z";
  }

  /** Twelve hours in the past counts minus one day. */
  lemma ExpiryInThePast()
    ensures ExpiryDateStringToDays("20191231120000Z", DateTime(2020, 1, 1, 0, 0, 0, 0)) == Some(-1)
  {
    ParsePastExample();
    var e, t := DateTime(2019, 12, 31, 12, 0, 0, 0), DateTime(2020, 1, 1, 0, 0, 0, 0);
    DaysBeforeYearStep(2019);
    assert Ordinal(2020, 1, 1) == Ordinal(2019, 12, 31) + 1;
    assert ToMicros(e) - ToMicros(t) == -DayMicros / 2;
    FloorDaysUnique(ToMicros(e) - ToMicros(t), -1);
  }

  /**
   * Month 13, hour 24 and second 60 are out of range, so strptime raises on
   * any text that spells one of them.
   */
  lemma ParseRejectsOutOfRangeFields(s: string)
    requires |s| == 15 && (s[4..6] == "13" || s[8..10] == "24" || s[12..14] == "60")
    ensures ParseGeneralizedTime(s) == None
  {
    if ParseGeneralizedTime(s).Some? {
      ParseSpellsInstant(s);
      assert false;
    }
  }

  /** 30 February does not exist, so strptime raises. */
  lemma ExpiryInvalidDay()
    ensures ExpiryDateStringToDays("20190230000000Z", DateTime(2019, 1, 1, 0, 0, 0, 0)) == None
  {
    var s := "20190230000000Z";
    assert Number(s, 0, 4) == Some(2019) by { assert Number(s, 0, 2) == Some(20); assert Number(s, 0, 3) == Some(201); }
    assert DayField(s, 6) == Some(30);
  }
}
