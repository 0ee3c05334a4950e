/** The proleptic Gregorian calendar arithmetic behind Go's
    `time.Date(year, month, 1, 0, 0, 0, 0, time.UTC)` and
    `AddDate(0, 1, 0)`, as Unix milliseconds. Go normalises a month
    outside 1..12 into the neighbouring years, and so does `MonthStart`. */
module Calendar {
  const MsPerDay := 86_400_000

  predicate IsLeap(y: int) {
    y % 4 == 0 && (y % 100 != 0 || y % 400 == 0)
  }

  function DaysIn(y: int, m: int): (d: int)
    requires 1 <= m <= 12
    ensures 28 <= d <= 31
    ensures m == 2 ==> (d == 29 <==> IsLeap(y))
  {
    if m == 2 then (if IsLeap(y) then 29 else 28)
    else if m == 4 || m == 6 || m == 9 || m == 11 then 30
    else 31
  }

  /** The number of leap years in `[0, y)` (negative `y` counts backwards). */
  function LeapsBefore(y: int): int {
    (y + 3) / 4 - (y + 99) / 100 + (y + 399) / 400
  }

  /** Days from 0000-01-01 to the first of January of `y`. */
  function DaysBeforeYear(y: int): int {
    365 * y + LeapsBefore(y)
  }

  /** Days from the first of January to the first of month `m`. */
  function DaysBeforeMonth(y: int, m: int): int
    requires 1 <= m <= 12
  {
    var leap := if IsLeap(y) then 1 else 0;
    if m == 1 then 0
    else if m == 2 then 31
    else if m == 3 then 59 + leap
    else if m == 4 then 90 + leap
    else if m == 5 then 120 + leap
    else if m == 6 then 151 + leap
    else if m == 7 then 181 + leap
    else if m == 8 then 212 + leap
    else if m == 9 then 243 + leap
    else if m == 10 then 273 + leap
    else if m == 11 then 304 + leap
    else 334 + leap
  }

  /** The year and month 1..12 that Go's normalisation turns `(year, month)` into. */
  function NormYear(year: int, month: int): int {
    year + (month - 1) / 12
  }

  function NormMonth(month: int): (m: int)
    ensures 1 <= m <= 12
  {
    (month - 1) % 12 + 1
  }

  /** `time.Date(year, month, 1, 0, 0, 0, 0, time.UTC)` in Unix milliseconds. */
  function MonthStart(year: int, month: int): int {
    var y := NormYear(year, month);
    (DaysBeforeYear(y) + DaysBeforeMonth(y, NormMonth(month)) - DaysBeforeYear(1970)) * MsPerDay
  }

  /** Consecutive years differ by 365 days, plus one for a leap year. */
  lemma YearLength(y: int)
    ensures DaysBeforeYear(y + 1) - DaysBeforeYear(y) == if IsLeap(y) then 366 else 365
  {
    assert (y + 4) / 4 - (y + 3) / 4 == (if y % 4 == 0 then 1 else 0);
    assert (y + 100) / 100 - (y + 99) / 100 == (if y % 100 == 0 then 1 else 0);
    assert (y + 400) / 400 - (y + 399) / 400 == (if y % 400 == 0 then 1 else 0);
  }

  /** Normalising `month + 1` steps to the next calendar month. */
  lemma NextMonth(year: int, month: int)
    ensures NormMonth(month) < 12 ==>
      NormYear(year, month + 1) == NormYear(year, month) && NormMonth(month + 1) == NormMonth(month) + 1
    ensures NormMonth(month) == 12 ==>
      NormYear(year, month + 1) == NormYear(year, month) + 1 && NormMonth(month + 1) == 1
  {
  }

  /** `start.AddDate(0, 1, 0)` lies exactly one calendar month after
      `start`: between 28 and 31 days later, the length of the normalised
      month. */
  lemma MonthLength(year: int, month: int)
    ensures MonthStart(year, month + 1) - MonthStart(year, month)
         == DaysIn(NormYear(year, month), NormMonth(month)) * MsPerDay
    ensures 28 * MsPerDay <= MonthStart(year, month + 1) - MonthStart(year, month) <= 31 * MsPerDay
  {
    NextMonth(year, month);
    YearLength(NormYear(year, month));
  }

  /** Months thirteen and zero are January of the next year and December of
      the previous one, as in Go. */
  lemma MonthNormalisation(year: int)
    ensures MonthStart(year, 13) == MonthStart(year + 1, 1)
    ensures MonthStart(year, 0) == MonthStart(year - 1, 12)
  {
  }

  /** The Unix epoch is the start of January 1970. */
  lemma EpochIsJanuary1970()
    ensures MonthStart(1970, 1) == 0
  {
  }

  /** 2024-03-01T00:00:00Z is 1709251200 s, after a leap February. */
  lemma March2024()
    ensures MonthStart(2024, 3) == 1_709_251_200_000
  {
    assert LeapsBefore(1970) == 478 && LeapsBefore(2024) == 491;
    assert DaysBeforeYear(2024) - DaysBeforeYear(1970) == 19723;
  }
}
