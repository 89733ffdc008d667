/**
 * Calendar dates: reading a birth date with `strptime(s, "%Y-%m-%d")` and
 * computing an age in whole years against a reference date (`calculate_age`).
 */
module Dates {
  import opened Wrappers
  import opened Text

  datatype Date = Date(year: int, month: int, day: int)

  predicate IsLeapYear(y: int) {
    y % 4 == 0 && (y % 100 != 0 || y % 400 == 0)
  }

  function DaysInMonth(y: int, m: int): int
    requires 1 <= m <= 12
  {
    if m == 2 then (if IsLeapYear(y) then 29 else 28)
    else if m == 4 || m == 6 || m == 9 || m == 11 then 30
    else 31
  }

  /** A date `datetime.date` accepts: year 1 to 9999 and a day that exists in its month. */
  predicate ValidDate(d: Date) {
    1 <= d.year <= 9999 && 1 <= d.month <= 12 && 1 <= d.day <= DaysInMonth(d.year, d.month)
  }

  /** `a < b` on dates: by year, then month, then day. */
  predicate Before(a: Date, b: Date) {
    a.year < b.year || (a.year == b.year && (a.month < b.month || (a.month == b.month && a.day < b.day)))
  }

  predicate InRange(c: char, lo: char, hi: char) { lo <= c <= hi }

  /** The `%m` field followed by the `-` of the format: `1[0-2]|0[1-9]|[1-9]`, tried in that order. */
  function MonthThenDash(s: string, i: nat): (r: Option<(int, nat)>)
    ensures r.Some? ==> 1 <= r.value.0 <= 12 && i < r.value.1 <= |s|
  {
    if i + 2 < |s| && s[i] == '1' && InRange(s[i + 1], '0', '2') && s[i + 2] == '-' then
      Some((10 + DigitValue(s[i + 1]), i + 3))
    else if i + 2 < |s| && s[i] == '0' && InRange(s[i + 1], '1', '9') && s[i + 2] == '-' then
      Some((DigitValue(s[i + 1]), i + 3))
    else if i + 1 < |s| && InRange(s[i], '1', '9') && s[i + 1] == '-' then
      Some((DigitValue(s[i]), i + 2))
    else None
  }

  /** The `%d` field: `3[01]|[12]\d|0[1-9]|[1-9]| [1-9]`; the first alternative that matches is taken. */
  function DayField(s: string, j: nat): (r: Option<(int, nat)>)
    ensures r.Some? ==> 1 <= r.value.0 <= 31 && j < r.value.1 <= |s|
  {
    if j + 1 < |s| && s[j] == '3' && InRange(s[j + 1], '0', '1') then
      Some((30 + DigitValue(s[j + 1]), j + 2))
    else if j + 1 < |s| && InRange(s[j], '1', '2') && IsDigit(s[j + 1]) then
      Some((10 * DigitValue(s[j]) + DigitValue(s[j + 1]), j + 2))
    else if j + 1 < |s| && s[j] == '0' && InRange(s[j + 1], '1', '9') then
      Some((DigitValue(s[j + 1]), j + 2))
    else if j < |s| && InRange(s[j], '1', '9') then
      Some((DigitValue(s[j]), j + 1))
    else if j + 1 < |s| && s[j] == ' ' && InRange(s[j + 1], '1', '9') then
      Some((DigitValue(s[j + 1]), j + 2))
    else None
  }

  /**
   * `datetime.strptime(s, "%Y-%m-%d").date()`: `None` where Python raises
   * ValueError (no match, unconverted data left over, or a day or year
   * outside the calendar).
   */
  function ParseIsoDate(s: string): (r: Option<Date>)
    ensures r.Some? ==> ValidDate(r.value)
  {
    if |s| < 5 || !(IsDigit(s[0]) && IsDigit(s[1]) && IsDigit(s[2]) && IsDigit(s[3])) || s[4] != '-' then None
    else
      match MonthThenDash(s, 5)
      case None => None
      case Some((month, j)) =>
        match DayField(s, j)
        case None => None
        case Some((day, end)) =>
          var year := 1000 * DigitValue(s[0]) + 100 * DigitValue(s[1]) + 10 * DigitValue(s[2]) + DigitValue(s[3]);
          var d := Date(year, month, day);
          if end == |s| && ValidDate(d) then Some(d) else None
  }

  /** Two digits, with a leading zero below ten (`%02d`). */
  function TwoDigits(n: nat): string
    requires n < 100
  {
    [DigitChar(n / 10), DigitChar(n % 10)]
  }

  /** `date.isoformat()` for a year of four digits: `YYYY-MM-DD`, zero-padded. */
  function Iso(d: Date): string
    requires ValidDate(d)
  {
    [DigitChar(d.year / 1000), DigitChar(d.year / 100 % 10), DigitChar(d.year / 10 % 10), DigitChar(d.year % 10)]
      + "-" + TwoDigits(d.month) + "-" + TwoDigits(d.day)
  }

  /** A date written as `YYYY-MM-DD` is read back by `strptime` as that very date. */
  lemma IsoRoundTrip(d: Date)
    requires ValidDate(d)
    ensures ParseIsoDate(Iso(d)) == Some(d)
  {
    var s := Iso(d);
    assert s[..4] == [DigitChar(d.year / 1000), DigitChar(d.year / 100 % 10), DigitChar(d.year / 10 % 10), DigitChar(d.year % 10)];
    assert s[4] == '-' && s[5..7] == TwoDigits(d.month) && s[7] == '-' && s[8..] == TwoDigits(d.day);
    YearDigits(s, d.year);
    MonthDigits(s, d.month);
    DayDigits(s, d.day);
  }

  /** Four digits written for `y` read back as `y`. */
  lemma YearDigits(s: string, y: int)
    requires 1 <= y <= 9999 && |s| >= 4
    requires s[..4] == [DigitChar(y / 1000), DigitChar(y / 100 % 10), DigitChar(y / 10 % 10), DigitChar(y % 10)]
    ensures IsDigit(s[0]) && IsDigit(s[1]) && IsDigit(s[2]) && IsDigit(s[3])
    ensures 1000 * DigitValue(s[0]) + 100 * DigitValue(s[1]) + 10 * DigitValue(s[2]) + DigitValue(s[3]) == y
  {
    assert s[0] == s[..4][0] && s[1] == s[..4][1] && s[2] == s[..4][2] && s[3] == s[..4][3];
    PlaceValues(y);
  }

  /** The four decimal places of a year below 10000 add back up to it. */
  lemma PlaceValues(y: int)
    requires 0 <= y <= 9999
    ensures 1000 * (y / 1000) + 100 * (y / 100 % 10) + 10 * (y / 10 % 10) + y % 10 == y
  {
    var t := y / 10;
    var h := t / 10;
    assert y == 10 * t + y % 10;
    assert t == 10 * h + t % 10;
    assert h == 10 * (h / 10) + h % 10 && h / 10 < 10;
    assert y / 100 == h && y / 1000 == h / 10;
  }

  /** A zero-padded month followed by `-` at position 5 is read as that month. */
  lemma MonthDigits(s: string, m: int)
    requires 1 <= m <= 12 && |s| >= 8 && s[5..7] == TwoDigits(m) && s[7] == '-'
    ensures MonthThenDash(s, 5) == Some((m, 8))
  {
    assert s[5] == s[5..7][0] && s[6] == s[5..7][1];
  }

  /** A zero-padded day ending the string at position 8 is read as that day. */
  lemma DayDigits(s: string, day: int)
    requires 1 <= day <= 31 && |s| == 10 && s[8..] == TwoDigits(day)
    ensures DayField(s, 8) == Some((day, 10))
  {
    assert s[8] == s[8..][0] && s[9] == s[8..][1];
  }

  /** `calculate_age` on parsed dates: whole years, one less before this year's birthday. */
  function AgeOn(birth: Date, reference: Date): int {
    reference.year - birth.year
      - (if reference.month < birth.month || (reference.month == birth.month && reference.day < birth.day)
         then 1 else 0)
  }

  /** `calculate_age(birth_date, reference_date)`; Python raises on a birth date `strptime` rejects. */
  function CalculateAge(birthDate: string, reference: Date): int
    requires ParseIsoDate(birthDate).Some?
  {
    AgeOn(ParseIsoDate(birthDate).value, reference)
  }

  /** The date on which someone born on `birth` turns `n` (month and day kept as they are). */
  function Anniversary(birth: Date, n: int): Date {
    Date(birth.year + n, birth.month, birth.day)
  }

  /**
   * The age is the number of anniversaries reached: the reference date is
   * on or after anniversary `a` and before anniversary `a + 1`, and no
   * other number has that property.
   */
  lemma AgeIsCompletedYears(birth: Date, reference: Date, a: int)
    ensures a == AgeOn(birth, reference)
        <==> !Before(reference, Anniversary(birth, a)) && Before(reference, Anniversary(birth, a + 1))
  {
  }

  /** Someone born on or before the reference date has a non-negative age. */
  lemma AgeNonNegative(birth: Date, reference: Date)
    requires !Before(reference, birth)
    ensures AgeOn(birth, reference) >= 0
  {
  }

  /** Age never decreases as the reference date moves forward. */
  lemma AgeMonotone(birth: Date, r1: Date, r2: Date)
    requires !Before(r2, r1)
    ensures AgeOn(birth, r1) <= AgeOn(birth, r2)
  {
  }
}
