/**
 * Calendar dates as `java.time.LocalDate` holds them for the years this
 * program can render with four digits: ordering (`isBefore`, `isAfter`,
 * `isEqual`) and the ISO-8601 rendering of `toString`.
 */
module Dates {
  import opened Strings

  predicate IsLeapYear(y: int)
  {
    y % 4 == 0 && (y % 100 != 0 || y % 400 == 0)
  }

  function DaysInMonth(y: int, m: int): int
    requires 1 <= m <= 12
  {
    if m == 2 then (if IsLeapYear(y) then 29 else 28)
    else if m == 4 || m == 6 || m == 9 || m == 11 then 30
    else 31
  }

  datatype Ymd = Ymd(year: int, month: int, day: int)

  predicate IsCalendarDate(d: Ymd)
  {
    0 <= d.year <= 9999 && 1 <= d.month <= 12 && 1 <= d.day <= DaysInMonth(d.year, d.month)
  }

  /** A calendar day with a four-digit year. */
  type Date = d: Ymd | IsCalendarDate(d) witness Ymd(1970, 1, 1)

  /** `a.isBefore(b)`: lexicographic on (year, month, day). */
  predicate Before(a: Date, b: Date)
  {
    a.year < b.year
    || (a.year == b.year && a.month < b.month)
    || (a.year == b.year && a.month == b.month && a.day < b.day)
  }

  /** `a.isEqual(b) || a.isBefore(b)`. */
  predicate OnOrBefore(a: Date, b: Date)
  {
    !Before(b, a)
  }

  lemma BeforeIsStrictTotalOrder(a: Date, b: Date, c: Date)
    ensures !Before(a, a)
    ensures Before(a, b) ==> !Before(b, a)
    ensures Before(a, b) && Before(b, c) ==> Before(a, c)
    ensures a == b || Before(a, b) || Before(b, a)
  {
  }

  /** Year, month and day, zero-padded to 4, 2 and 2 digits, separated by dashes. */
  function DateText(year: nat, month: nat, day: nat): string
  {
    ZeroPad(year, 4) + "-" + ZeroPad(month, 2) + "-" + ZeroPad(day, 2)
  }

  /** The layout of `DateText` for a four-digit year: ten characters whose digit groups read back. */
  lemma DateTextFields(year: nat, month: nat, day: nat)
    requires year < 10000 && month < 100 && day < 100
    ensures var s := DateText(year, month, day);
      && |s| == 10 && s[4] == '-' && s[7] == '-'
      && s[..4] == ZeroPad(year, 4) && s[5..7] == ZeroPad(month, 2) && s[8..] == ZeroPad(day, 2)
      && AllDigits(s[..4]) && AllDigits(s[5..7]) && AllDigits(s[8..])
      && DigitsValue(s[..4]) == year && DigitsValue(s[5..7]) == month && DigitsValue(s[8..]) == day
  {
    assert Pow10(4) == 10000 && Pow10(2) == 100;
    ZeroPadValue(year, 4);
    ZeroPadValue(month, 2);
    ZeroPadValue(day, 2);
    var s := DateText(year, month, day);
    assert s[..4] == ZeroPad(year, 4);
    assert s[5..7] == ZeroPad(month, 2);
    assert s[8..] == ZeroPad(day, 2);
  }

  /** `LocalDate.toString()`: yyyy-MM-dd with the proleptic year, so year 0 prints as 0000. */
  function Iso(d: Date): string
  {
    DateText(d.year, d.month, d.day)
  }

  /**
   * The ISO text has ten characters, dashes at positions 4 and 7, and its
   * three digit fields read back as the year, month and day.
   */
  lemma IsoFields(d: Date)
    ensures var s := Iso(d);
      && |s| == 10 && s[4] == '-' && s[7] == '-'
      && s[..4] == ZeroPad(d.year, 4) && s[5..7] == ZeroPad(d.month, 2) && s[8..] == ZeroPad(d.day, 2)
      && AllDigits(s[..4]) && AllDigits(s[5..7]) && AllDigits(s[8..])
      && DigitsValue(s[..4]) == d.year && DigitsValue(s[5..7]) == d.month && DigitsValue(s[8..]) == d.day
  {
    DateTextFields(d.year, d.month, d.day);
  }

  /** The year of era of a proleptic year: year 0 is 1 BCE, year -1 is 2 BCE, and so on. */
  function YearOfEra(year: int): nat
  {
    if year >= 1 then year else 1 - year
  }

  /**
   * A date formatted with the `DateTimeFormatter` pattern `yyyy-MM-dd`:
   * `yyyy` is the year of era, so year 0 prints as 0001.
   */
  function EraDate(d: Date): string
  {
    DateText(YearOfEra(d.year), d.month, d.day)
  }

  /** The `yyyy-MM-dd` text has ten characters and its digit groups read back as year of era, month and day. */
  lemma EraDateFields(d: Date)
    ensures var s := EraDate(d);
      && |s| == 10 && s[4] == '-' && s[7] == '-'
      && DigitsValue(s[..4]) == YearOfEra(d.year) && DigitsValue(s[5..7]) == d.month && DigitsValue(s[8..]) == d.day
  {
    DateTextFields(YearOfEra(d.year), d.month, d.day);
  }

  lemma EraDateLength(d: Date)
    ensures |EraDate(d)| == 10
  {
    EraDateFields(d);
  }

  lemma IsoLength(d: Date)
    ensures |Iso(d)| == 10
  {
    IsoFields(d);
  }

  /** From year 1 on, the pattern and `toString` print the same text. */
  lemma EraDateAgreesWithIso(d: Date)
    requires d.year >= 1
    ensures EraDate(d) == Iso(d)
  {
  }

  /**
   * Two dates print the same under `yyyy-MM-dd` exactly when they are equal,
   * or share month and day in years 0 and 1.
   */
  lemma EraDateCollisions(a: Date, b: Date)
    ensures EraDate(a) == EraDate(b)
      <==> a == b || (a.month == b.month && a.day == b.day && a.year + b.year == 1)
  {
    EraDateFields(a);
    EraDateFields(b);
    if EraDate(a) == EraDate(b) {
      assert YearOfEra(a.year) == YearOfEra(b.year);
    }
  }

  /** Different dates render differently. */
  lemma IsoInjective(a: Date, b: Date)
    ensures Iso(a) == Iso(b) <==> a == b
  {
    IsoFields(a);
    IsoFields(b);
  }

  /** The ISO text splits at its dashes into the three zero-padded fields. */
  lemma IsoSplit(d: Date)
    ensures Split(Iso(d), '-') == [ZeroPad(d.year, 4), ZeroPad(d.month, 2), ZeroPad(d.day, 2)]
  {
    IsoFields(d);
    var y, m, dd := ZeroPad(d.year, 4), ZeroPad(d.month, 2), ZeroPad(d.day, 2);
    assert Free(y, '-') && Free(m, '-') && Free(dd, '-') by {
      assert forall i :: 0 <= i < |y| ==> IsDigit(y[i]);
    }
    assert [y, m, dd][1..] == [m, dd] && [m, dd][1..] == [dd];
    assert Join([m, dd], '-') == m + "-" + dd;
    assert Iso(d) == Join([y, m, dd], '-');
    SplitJoin([y, m, dd], '-');
  }
}
