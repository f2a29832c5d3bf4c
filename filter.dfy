/**
 * The search-and-filter listing: the selection object built field by field
 * from the optional query parameters, what it selects, and the listing
 * sorted newest first.
 */
module Filter {
  import opened Calendar
  import opened Ledger

  /**
   * The query parameters after numeric and date parsing.  `None` stands for
   * a parameter that is absent or empty; a text parameter given as `""`
   * counts as absent too (see `Given`).  Dates are already parsed, so an
   * unparsable one is `Some(Invalid)`.
   */
  datatype FilterParams = FilterParams(
    kind: Option<string>,
    month: Option<int>,
    year: Option<int>,
    keyword: Option<string>,
    category: Option<string>,
    minAmount: Option<int>,
    maxAmount: Option<int>,
    startDate: Option<Instant>,
    endDate: Option<Instant>)

  /** The `createdAt` condition: any of `$gte`, `$lt`, `$lte`. */
  datatype TimeBounds = TimeBounds(gte: Option<Instant>, lt: Option<Instant>, lte: Option<Instant>)

  /** The `amount` condition: `$gte` and/or `$lte`. */
  datatype AmountBounds = AmountBounds(gte: Option<int>, lte: Option<int>)

  /**
   * The selection object.  `user` is always present; `keyword` is the
   * `$or` of a title match and a category match.
   */
  datatype Query = Query(
    user: UserId,
    kind: Option<string>,
    createdAt: Option<TimeBounds>,
    amount: Option<AmountBounds>,
    keyword: Option<string>,
    category: Option<string>)

  /**
   * A date bound that is absent, or a valid instant `ms` with `ms <= t` for a
   * lower bound, `t < ms` for a strict upper bound, else `t <= ms`.
   */
  predicate BoundHolds(b: Option<Instant>, t: int, lower: bool, strict: bool)
  {
    match b
    case None => true
    case Some(Invalid) => false
    case Some(At(ms)) =>
      if lower then ms <= t else if strict then t < ms else t <= ms
  }

  predicate TimeWithin(b: Option<TimeBounds>, t: int)
  {
    b.None? ||
    (BoundHolds(b.value.gte, t, true, false) &&
     BoundHolds(b.value.lt, t, false, true) &&
     BoundHolds(b.value.lte, t, false, false))
  }

  predicate AmountWithin(b: Option<AmountBounds>, amount: int)
  {
    b.None? ||
    ((b.value.gte.Some? ==> b.value.gte.value <= amount) &&
     (b.value.lte.Some? ==> amount <= b.value.lte.value))
  }

  /**
   * The keyword occurs in the title or in the category, ignoring case; an
   * exact occurrence in either field is enough.
   */
  predicate MentionsKeyword(e: Entry, keyword: string)
    ensures Contains(e.title, keyword) || Contains(e.category, keyword) ==> MentionsKeyword(e, keyword)
  {
    ContainsIgnoringCase(e.title, keyword) || ContainsIgnoringCase(e.category, keyword)
  }

  /**
   * The entry satisfies every condition of the selection object: only the
   * requester's entries ever match, and an object holding an Invalid Date
   * matches nothing.
   */
  predicate Matches(q: Query, e: Entry)
    ensures Matches(q, e) ==> e.owner == q.user
    ensures !WellFormed(q) ==> !Matches(q, e)
  {
    && e.owner == q.user
    && (q.kind.Some? ==> e.kind == q.kind.value)
    && (q.category.Some? ==> e.category == q.category.value)
    && AmountWithin(q.amount, e.amount)
    && (q.keyword.Some? ==> MentionsKeyword(e, q.keyword.value))
    && TimeWithin(q.createdAt, e.createdAt)
  }

  predicate ValidBound(b: Option<Instant>)
  {
    b.None? || b.value.At?
  }

  /**
   * The store accepts the object only when every date in it is a valid
   * instant; an Invalid Date makes the find fail.
   */
  predicate WellFormed(q: Query)
  {
    q.createdAt.None? ||
    (ValidBound(q.createdAt.value.gte) && ValidBound(q.createdAt.value.lt) && ValidBound(q.createdAt.value.lte))
  }

  /**
   * Builds the selection object the way the handler does: start from the
   * owner condition and add or overwrite one field per given parameter, the
   * explicit date range last.
   */
  method BuildQuery(userId: UserId, p: FilterParams, currentYear: int) returns (q: Query)
    ensures q.user == userId
    ensures WellFormed(q) <==> DateWindow(p, currentYear).Some?
    ensures WellFormed(q) ==>
      forall e :: Matches(q, e) <==> Selected(userId, p, DateWindow(p, currentYear).value, e)
    ensures p.startDate.Some? || p.endDate.Some? ==>
      q.createdAt == Some(TimeBounds(p.startDate, None, p.endDate))
  {
    q := Query(userId, None, None, None, None, None);
    if Given(p.kind) {
      q := q.(kind := p.kind);
    }
    q := AddYearWindow(q, p.year);
    q := AddMonthWindow(q, p.year, p.month, currentYear);
    q := AddAmountRange(q, p.minAmount, p.maxAmount);
    if Given(p.keyword) {
      q := q.(keyword := p.keyword);
    }
    if Given(p.category) {
      q := q.(category := p.category);
    }
    q := AddDateRange(q, p.startDate, p.endDate);
    assert q == Built(userId, p, currentYear);
    QueryMeaning(userId, p, currentYear);
  }

  /** The year step: `createdAt` becomes `[Jan 1 of year, Jan 1 of year + 1)`. */
  method AddYearWindow(q0: Query, year: Option<int>) returns (q: Query)
    ensures q == q0.(createdAt := YearStep(q0.createdAt, year))
  {
    q := q0;
    if year.Some? {
      var startOfYear := IsoMonthStart(year.value, 1);
      var endOfYear := IsoMonthStart(year.value + 1, 1);
      q := q.(createdAt := Some(TimeBounds(Some(startOfYear), Some(endOfYear), None)));
    }
  }

  /**
   * The month step: `$gte` and `$lt` of `createdAt` are overwritten with the
   * month's window in the given year, or in the current year.
   */
  method AddMonthWindow(q0: Query, year: Option<int>, month: Option<int>, currentYear: int) returns (q: Query)
    ensures q == q0.(createdAt := MonthStep(q0.createdAt, year, month, currentYear))
  {
    q := q0;
    if month.Some? {
      if q.createdAt.None? {
        q := q.(createdAt := Some(TimeBounds(None, None, None)));
      }
      var yearValue := if year.Some? then year.value else currentYear;
      var monthStart := IsoMonthStart(yearValue, month.value);
      var nextMonth := month.value + 1;
      var monthEnd := if nextMonth > 12 then IsoMonthStart(yearValue + 1, 1) else IsoMonthStart(yearValue, nextMonth);
      q := q.(createdAt := Some(q.createdAt.value.(gte := Some(monthStart))));
      q := q.(createdAt := Some(q.createdAt.value.(lt := Some(monthEnd))));
    }
  }

  /** The amount step: inclusive bounds, each only when given. */
  method AddAmountRange(q0: Query, minAmount: Option<int>, maxAmount: Option<int>) returns (q: Query)
    ensures q == if minAmount.None? && maxAmount.None? then q0
      else q0.(amount := Some(AmountBounds(minAmount, maxAmount)))
  {
    q := q0;
    if minAmount.Some? || maxAmount.Some? {
      q := q.(amount := Some(AmountBounds(None, None)));
      if minAmount.Some? {
        q := q.(amount := Some(q.amount.value.(gte := minAmount)));
      }
      if maxAmount.Some? {
        q := q.(amount := Some(q.amount.value.(lte := maxAmount)));
      }
    }
  }

  /** The explicit date step: `createdAt` is replaced by the given inclusive bounds. */
  method AddDateRange(q0: Query, startDate: Option<Instant>, endDate: Option<Instant>) returns (q: Query)
    ensures q == q0.(createdAt := DateStep(q0.createdAt, startDate, endDate))
  {
    q := q0;
    if startDate.Some? || endDate.Some? {
      q := q.(createdAt := Some(TimeBounds(None, None, None)));
      if startDate.Some? {
        q := q.(createdAt := Some(q.createdAt.value.(gte := startDate)));
      }
      if endDate.Some? {
        q := q.(createdAt := Some(q.createdAt.value.(lte := endDate)));
      }
    }
  }

  /** The object `BuildQuery` ends with, field by field. */
  ghost function Built(userId: UserId, p: FilterParams, currentYear: int): Query
  {
    Query(userId,
          if Given(p.kind) then p.kind else None,
          BuiltTimeBounds(p, currentYear),
          if p.minAmount.Some? || p.maxAmount.Some? then Some(AmountBounds(p.minAmount, p.maxAmount)) else None,
          if Given(p.keyword) then p.keyword else None,
          if Given(p.category) then p.category else None)
  }

  /** The `createdAt` condition left in place after the year, month and date steps. */
  ghost function BuiltTimeBounds(p: FilterParams, currentYear: int): Option<TimeBounds>
  {
    DateStep(MonthStep(YearStep(None, p.year), p.year, p.month, currentYear), p.startDate, p.endDate)
  }

  /** `createdAt` after the year step. */
  ghost function YearStep(b: Option<TimeBounds>, year: Option<int>): Option<TimeBounds>
  {
    if year.None? then b
    else Some(TimeBounds(Some(IsoMonthStart(year.value, 1)), Some(IsoMonthStart(year.value + 1, 1)), None))
  }

  /** `createdAt` after the month step. */
  ghost function MonthStep(b: Option<TimeBounds>, year: Option<int>, month: Option<int>, currentYear: int): Option<TimeBounds>
  {
    if month.None? then b
    else
      var y := if year.Some? then year.value else currentYear;
      var m := month.value;
      var b0 := if b.Some? then b.value else TimeBounds(None, None, None);
      Some(b0.(gte := Some(IsoMonthStart(y, m)),
               lt := Some(if m + 1 > 12 then IsoMonthStart(y + 1, 1) else IsoMonthStart(y, m + 1))))
  }

  /** `createdAt` after the explicit date step. */
  ghost function DateStep(b: Option<TimeBounds>, startDate: Option<Instant>, endDate: Option<Instant>): Option<TimeBounds>
  {
    if startDate.None? && endDate.None? then b else Some(TimeBounds(startDate, None, endDate))
  }

  /**
   * The `createdAt` condition holds valid dates exactly when the window in
   * effect exists, and then it accepts exactly the instants of that window.
   */
  lemma TimeBoundsMeaning(p: FilterParams, currentYear: int)
    ensures WellFormed(Query("", None, BuiltTimeBounds(p, currentYear), None, None, None))
      <==> DateWindow(p, currentYear).Some?
    ensures DateWindow(p, currentYear).Some? ==>
      forall t :: TimeWithin(BuiltTimeBounds(p, currentYear), t) <==> InWindow(DateWindow(p, currentYear).value, t)
  {
    if p.startDate.Some? || p.endDate.Some? {
    } else if p.month.Some? {
      var y := if p.year.Some? then p.year.value else currentYear;
      var m := p.month.value;
      if 1 <= m <= 12 {
        assert (if m + 1 > 12 then IsoMonthStart(y + 1, 1) else IsoMonthStart(y, m + 1)).At? ==>
          (if m + 1 > 12 then IsoMonthStart(y + 1, 1) else IsoMonthStart(y, m + 1)).ms == NextMonthStart(y, m);
      }
    } else if p.year.Some? {
    }
  }

  /** The object built step by step selects exactly what the reference definition selects. */
  lemma QueryMeaning(userId: UserId, p: FilterParams, currentYear: int)
    ensures WellFormed(Built(userId, p, currentYear)) <==> DateWindow(p, currentYear).Some?
    ensures WellFormed(Built(userId, p, currentYear)) ==>
      forall e :: Matches(Built(userId, p, currentYear), e) <==> Selected(userId, p, DateWindow(p, currentYear).value, e)
  {
    TimeBoundsMeaning(p, currentYear);
  }

  // ---------------------------------------------------------------------
  // Reference definition: the selection stated declaratively, with the
  // precedence of the date filters as an explicit choice of window.
  // ---------------------------------------------------------------------

  /** A time window on `createdAt`. */
  datatype Window =
    | AllTime
    | HalfOpen(from: int, until: int)            // from <= t < until
    | Closed(since: Option<int>, through: Option<int>) // since <= t <= through, either side optional

  predicate InWindow(w: Window, t: int)
  {
    match w
    case AllTime => true
    case HalfOpen(a, b) => a <= t < b
    case Closed(a, b) => (a.Some? ==> a.value <= t) && (b.Some? ==> t <= b.value)
  }

  /** `[Jan 1 of year, Jan 1 of year + 1)`, if both ends are valid dates. */
  function YearWindow(year: int): Option<Window>
  {
    if 1000 <= year && year + 1 <= 9999 then Some(HalfOpen(MonthStart(year, 1), MonthStart(year + 1, 1))) else None
  }

  /** `[first of month, first of the next month)`, if both ends are valid dates. */
  function MonthWindow(year: int, month: int): Option<Window>
  {
    if 1000 <= year <= 9999 && 1 <= month <= 12 && (month == 12 ==> year + 1 <= 9999)
    then Some(HalfOpen(MonthStart(year, month), NextMonthStart(year, month)))
    else None
  }

  /** The explicit, inclusive range, if each given date is valid. */
  function ExplicitWindow(startDate: Option<Instant>, endDate: Option<Instant>): Option<Window>
  {
    if startDate == Some(Invalid) || endDate == Some(Invalid) then None
    else Some(Closed(if startDate.Some? then Some(startDate.value.ms) else None,
                     if endDate.Some? then Some(endDate.value.ms) else None))
  }

  /**
   * The window in effect: an explicit start/end wins over year and month;
   * a month narrows to that month of the given (or current) year; a year
   * alone selects that year; otherwise time is not restricted.  `None`
   * when a date in the winning window is not a valid instant.
   */
  function DateWindow(p: FilterParams, currentYear: int): Option<Window>
  {
    if p.startDate.Some? || p.endDate.Some? then ExplicitWindow(p.startDate, p.endDate)
    else if p.month.Some? then MonthWindow(if p.year.Some? then p.year.value else currentYear, p.month.value)
    else if p.year.Some? then YearWindow(p.year.value)
    else Some(AllTime)
  }

  /** Which entries the listing is meant to select, given the window in effect. */
  predicate Selected(userId: UserId, p: FilterParams, w: Window, e: Entry)
  {
    && e.owner == userId
    && (Given(p.kind) ==> e.kind == p.kind.value)
    && (Given(p.category) ==> e.category == p.category.value)
    && (p.minAmount.Some? ==> p.minAmount.value <= e.amount)
    && (p.maxAmount.Some? ==> e.amount <= p.maxAmount.value)
    && (Given(p.keyword) ==> MentionsKeyword(e, p.keyword.value))
    && InWindow(w, e.createdAt)
  }

  // ---------------------------------------------------------------------
  // What the window policy means
  // ---------------------------------------------------------------------

  /** A year alone selects the half-open year `[Jan 1 of y, Jan 1 of y+1)`. */
  lemma YearAloneIsHalfOpenYear(p: FilterParams, currentYear: int, t: int)
    requires p.startDate.None? && p.endDate.None? && p.month.None? && p.year.Some?
    requires 1000 <= p.year.value <= 9998
    ensures DateWindow(p, currentYear).Some?
    ensures InWindow(DateWindow(p, currentYear).value, t) <==>
      MonthStart(p.year.value, 1) <= t < MonthStart(p.year.value + 1, 1)
  {
  }

  /** December's window ends on Jan 1 of the next year. */
  lemma DecemberRollsOver(p: FilterParams, currentYear: int)
    requires p.startDate.None? && p.endDate.None? && p.month == Some(12)
    requires DateWindow(p, currentYear).Some?
    ensures var y := if p.year.Some? then p.year.value else currentYear;
      DateWindow(p, currentYear) == Some(HalfOpen(MonthStart(y, 12), MonthStart(y + 1, 1)))
  {
  }

  /** Without a year, a month is taken in the current year. */
  lemma MonthDefaultsToCurrentYear(p: FilterParams, currentYear: int)
    requires p.startDate.None? && p.endDate.None? && p.month.Some? && p.year.None?
    ensures DateWindow(p, currentYear) == MonthWindow(currentYear, p.month.value)
  {
  }

  /**
   * A month window lies inside the year window, and the year window is the
   * union of its twelve month windows.
   */
  lemma {:induction false} MonthsPartitionYear(y: int, t: int)
    requires YearWindow(y).Some?
    ensures forall m :: 1 <= m <= 12 && InWindow(MonthWindow(y, m).value, t) ==> InWindow(YearWindow(y).value, t)
    ensures InWindow(YearWindow(y).value, t) ==> InWindow(MonthWindow(y, UtcMonth(t)).value, t)
  {
    forall m | 1 <= m <= 12 && InWindow(MonthWindow(y, m).value, t)
      ensures InWindow(YearWindow(y).value, t)
    {
      if m > 1 { MonthStartIncreasing(y, 1, y, m); }
      if m < 12 { MonthStartIncreasing(y, m + 1, y + 1, 1); }
    }
    if InWindow(YearWindow(y).value, t) {
      YearWindowSplitsIntoMonths(y, t);
    }
  }

  /**
   * Explicit dates replace any year/month window: the year, the month and
   * the current year then make no difference.
   */
  lemma ExplicitDatesWin(p: FilterParams, year: Option<int>, month: Option<int>, cy1: int, cy2: int)
    requires p.startDate.Some? || p.endDate.Some?
    ensures DateWindow(p, cy1) == DateWindow(p.(year := year, month := month), cy2)
    ensures DateWindow(p, cy1) == ExplicitWindow(p.startDate, p.endDate)
  {
  }

  /** A lone start date leaves the window open-ended above, and is inclusive. */
  lemma LoneStartDateHasNoUpperBound(p: FilterParams, currentYear: int, s: int, t: int)
    requires p.startDate == Some(At(s)) && p.endDate.None?
    ensures DateWindow(p, currentYear) == Some(Closed(Some(s), None))
    ensures InWindow(DateWindow(p, currentYear).value, t) <==> s <= t
  {
  }

  /** The keyword test ignores the case of the keyword. */
  lemma KeywordIgnoresCase(e: Entry, k1: string, k2: string)
    requires Lower(k1) == Lower(k2)
    ensures MentionsKeyword(e, k1) <==> MentionsKeyword(e, k2)
  {
  }

  /** "foo" matches a title "Foobar" and a category "food". */
  lemma KeywordExample(e: Entry)
    requires e.title == "Foobar" || e.category == "food"
    ensures MentionsKeyword(e, "foo")
  {
    if e.title == "Foobar" {
      assert OccursAt(Lower(e.title), Lower("foo"), 0);
    } else {
      assert OccursAt(Lower(e.category), Lower("foo"), 0);
    }
  }

  // ---------------------------------------------------------------------
  // Sorting the result by createdAt, newest first
  // ---------------------------------------------------------------------

  predicate NewestFirst(s: seq<Entry>)
  {
    forall i, j :: 0 <= i < j < |s| ==> s[i].createdAt >= s[j].createdAt
  }

  /** Inserts `x` before the first entry that is not newer than it. */
  function InsertNewestFirst(x: Entry, s: seq<Entry>): (r: seq<Entry>)
    ensures multiset(r) == multiset(s) + multiset{x}
  {
    if s == [] then [x]
    else if x.createdAt >= s[0].createdAt then [x] + s
    else
      assert s == [s[0]] + s[1..];
      [s[0]] + InsertNewestFirst(x, s[1..])
  }

  lemma {:induction false} InsertKeepsNewestFirst(x: Entry, s: seq<Entry>)
    requires NewestFirst(s)
    ensures NewestFirst(InsertNewestFirst(x, s))
    ensures s != [] ==> InsertNewestFirst(x, s)[0] in {x, s[0]}
  {
    if s != [] && x.createdAt < s[0].createdAt {
      var tail := InsertNewestFirst(x, s[1..]);
      InsertKeepsNewestFirst(x, s[1..]);
      assert tail[0].createdAt <= s[0].createdAt;
    }
  }

  /** `.sort({ createdAt: -1 })`: the same entries, newest first. */
  function SortNewestFirst(s: seq<Entry>): (r: seq<Entry>)
    ensures NewestFirst(r)
    ensures multiset(r) == multiset(s)
  {
    if s == [] then []
    else
      assert s == [s[0]] + s[1..];
      var sorted := SortNewestFirst(s[1..]);
      InsertKeepsNewestFirst(s[0], sorted);
      InsertNewestFirst(s[0], sorted)
  }

  function MatchesTest(q: Query): Entry -> bool
  {
    (e: Entry) => Matches(q, e)
  }

  function SelectedTest(userId: UserId, p: FilterParams, w: Window): Entry -> bool
  {
    (e: Entry) => Selected(userId, p, w, e)
  }

  /** The entries of the store that the selection object matches. */
  function MatchingEntries(q: Query, store: seq<Entry>): seq<Entry>
  {
    Where(store, MatchesTest(q))
  }

  /** The entries of the store the listing is meant to select. */
  function SelectedEntries(userId: UserId, p: FilterParams, w: Window, store: seq<Entry>): seq<Entry>
  {
    Where(store, SelectedTest(userId, p, w))
  }

  /**
   * The filter handler: build the object, reject it (store failure) when it
   * holds an invalid date, otherwise list the matching entries newest first.
   */
  method FilterFinance(userId: UserId, p: FilterParams, currentYear: int, store: seq<Entry>)
    returns (r: Outcome<seq<Entry>>)
    ensures DateWindow(p, currentYear).None? ==> r == ServerError
    ensures DateWindow(p, currentYear).Some? ==>
      r.Ok? && NewestFirst(r.value) &&
      multiset(r.value) == multiset(SelectedEntries(userId, p, DateWindow(p, currentYear).value, store))
  {
    var q := BuildQuery(userId, p, currentYear);
    if !WellFormed(q) {
      return ServerError;
    }
    var found := MatchingEntries(q, store);
    WhereCongruent(store, MatchesTest(q), SelectedTest(userId, p, DateWindow(p, currentYear).value));
    r := Ok(SortNewestFirst(found));
  }
}
