/**
 * Calendar dates of the payment-history report, reduced to what its
 * queries compute with them: month indices (`DATE_TRUNC('month', …)`,
 * `DATEDIFF('month', …)`), the year of a date, and comparisons against
 * the first or the sixth day of a month.
 */
module PhpCalendar {

  datatype Date = Date(year: int, month: int, day: int)

  predicate ValidDate(d: Date)
  {
    1 <= d.month <= 12 && 1 <= d.day <= 31
  }

  /** Number of months since January of year 0: DATE_TRUNC('month', d) as an integer. */
  function MonthIndex(d: Date): int
  {
    d.year * 12 + d.month - 1
  }

  /** January of `year` as a month index: DATE_TRUNC('year', …). */
  function JanuaryOf(year: int): (m: int)
    ensures m == MonthIndex(Date(year, 1, 1))
  {
    year * 12
  }

  /** DATEDIFF('month', a, b): the number of month boundaries from `a` to `b`. */
  function MonthsDiff(a: int, b: int): int
  {
    b - a
  }

  /** Chronological order of valid dates: `a >= b`. */
  predicate OnOrAfter(a: Date, b: Date)
  {
    a.year > b.year
    || (a.year == b.year && a.month > b.month)
    || (a.year == b.year && a.month == b.month && a.day >= b.day)
  }

  /** DATE_TRUNC('month', d): the first day of d's month. */
  function FirstOfMonth(d: Date): Date
  {
    Date(d.year, d.month, 1)
  }

  /** DATE_TRUNC('month', d) + INTERVAL 5 DAY: the sixth day of d's month. */
  function SixthOfMonth(d: Date): Date
  {
    Date(d.year, d.month, 6)
  }

  /** `a >= DATE_TRUNC('month', b)` is a comparison of months alone. */
  lemma OnOrAfterFirstOfMonth(a: Date, b: Date)
    requires ValidDate(a) && ValidDate(b)
    ensures OnOrAfter(a, FirstOfMonth(b)) <==> MonthIndex(a) >= MonthIndex(b)
  {
  }

  /**
   * The snapshot month of a reversal snapshot date (calc_new.py:90-94):
   * before the sixth of a month a snapshot still belongs to the previous month.
   */
  function SnapshotMonth(snapshot: Date): (m: int)
    requires ValidDate(snapshot)
    ensures m <= MonthIndex(snapshot) <= m + 1
    ensures m == MonthIndex(snapshot) <==> OnOrAfter(snapshot, SixthOfMonth(snapshot))
  {
    if snapshot.day < 6 then MonthIndex(snapshot) - 1 else MonthIndex(snapshot)
  }

  /**
   * The first month of the 36-month profile (calc_new.py:100-104): January two
   * years before the origination year, or before the current year when the
   * origination date is the 1899 placeholder.
   */
  function PhpStartMonth(otod: Date, today: Date): (m: int)
    ensures otod.year != 1899 ==> m == MonthIndex(Date(otod.year - 2, 1, 1))
    ensures otod.year == 1899 ==> m == MonthIndex(Date(today.year - 2, 1, 1))
    ensures m % 12 == 0
  {
    JanuaryOf(if otod.year == 1899 then today.year else otod.year) - 24
  }
}
