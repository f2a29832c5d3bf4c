/**
 * The time axis of the ledger.  Timestamps are integers (milliseconds).  The
 * calendar is abstract: every month has the same length, so the start of a
 * month is a strictly increasing linear function of (year, month).  What the
 * controller relies on is only that month starts are ordered, that the start
 * of "month 13" is January of the next year, and that the UTC month of an
 * instant is the month whose window contains it; all three hold here.
 */
module Calendar {

  /** Length of one month on the abstract timeline (30 days in milliseconds). */
  const MsPerMonth: int := 2592000000

  /** Start of `month` (1..12) of `year` as a timestamp. */
  function MonthStart(year: int, month: int): int
  {
    (year * 12 + (month - 1)) * MsPerMonth
  }

  /**
   * Start of the month after `month`, rolling over into January of
   * `year + 1` after December.
   */
  function NextMonthStart(year: int, month: int): (r: int)
    requires 1 <= month <= 12
    ensures r > MonthStart(year, month)
    ensures month == 12 ==> r == MonthStart(year + 1, 1)
    ensures month < 12 ==> r == MonthStart(year, month + 1)
  {
    if month + 1 > 12 then MonthStart(year + 1, 1) else MonthStart(year, month + 1)
  }

  /** The UTC month (1..12) an instant falls in. */
  function UtcMonth(t: int): (m: int)
    ensures 1 <= m <= 12
  {
    (t / MsPerMonth) % 12 + 1
  }

  /** Month starts are strictly increasing in (year, month) order. */
  lemma MonthStartIncreasing(y1: int, m1: int, y2: int, m2: int)
    requires 1 <= m1 <= 12 && 1 <= m2 <= 12
    requires y1 < y2 || (y1 == y2 && m1 < m2)
    ensures MonthStart(y1, m1) < MonthStart(y2, m2)
  {
    assert y1 * 12 + (m1 - 1) < y2 * 12 + (m2 - 1);
  }

  /** An instant inside the window of month `m` of year `y` has UTC month `m`. */
  lemma {:induction false} UtcMonthInWindow(y: int, m: int, t: int)
    requires 1 <= m <= 12
    requires MonthStart(y, m) <= t < NextMonthStart(y, m)
    ensures UtcMonth(t) == m
  {
    var k := y * 12 + (m - 1);
    assert k * MsPerMonth <= t < (k + 1) * MsPerMonth;
    DivisionIn(t, k);
    assert t / MsPerMonth == k;
    assert k % 12 == m - 1 by {
      assert k == 12 * y + (m - 1);
    }
  }

  /**
   * An instant of the year window `[Jan 1 of y, Jan 1 of y+1)` lies in the
   * window of its own UTC month of that year.
   */
  lemma {:induction false} YearWindowSplitsIntoMonths(y: int, t: int)
    requires MonthStart(y, 1) <= t < MonthStart(y + 1, 1)
    ensures MonthStart(y, UtcMonth(t)) <= t < NextMonthStart(y, UtcMonth(t))
  {
    var k := t / MsPerMonth;
    assert k * MsPerMonth <= t < (k + 1) * MsPerMonth;
    assert 12 * y <= k < 12 * y + 12;
    var m := k - 12 * y + 1;
    assert k % 12 == m - 1 by {
      assert k == 12 * y + (m - 1);
    }
    assert UtcMonth(t) == m;
  }

  /** Euclidean division of `t` by the month length, inside one month slot. */
  lemma DivisionIn(t: int, k: int)
    requires k * MsPerMonth <= t < (k + 1) * MsPerMonth
    ensures t / MsPerMonth == k
  {
    var q := t / MsPerMonth;
    assert q * MsPerMonth <= t < (q + 1) * MsPerMonth;
  }

  /**
   * The result of `new Date(...)`: a valid instant, or an Invalid Date
   * (whose getTime() is NaN).
   */
  datatype Instant = Invalid | At(ms: int)

  /**
   * The instant that the ISO string `YYYY-MM-01T00:00:00.000Z` denotes when
   * it is built from the decimal text of `year` and the two-digit text of
   * `month`: a valid date only for a four-digit year and a month 1..12.
   */
  function IsoMonthStart(year: int, month: int): (r: Instant)
    ensures r.At? <==> 1000 <= year <= 9999 && 1 <= month <= 12
    ensures r.At? ==> r.ms == MonthStart(year, month)
  {
    if 1000 <= year <= 9999 && 1 <= month <= 12 then At(MonthStart(year, month)) else Invalid
  }
}
