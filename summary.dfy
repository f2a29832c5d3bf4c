/**
 * The income/expense summary over the owner's entries, and the same summary
 * over an inclusive period, after its date validation.
 */
module Summary {
  import opened Calendar
  import opened Ledger

  datatype Totals = Totals(totalIncome: int, totalExpense: int, balance: int)

  /** Income total, expense total and balance of a set of entries. */
  function Summarize(es: seq<Entry>): (t: Totals)
    ensures t.balance == t.totalIncome - t.totalExpense
  {
    var totalIncome := Total(OfKind(es, Income));
    var totalExpense := Total(OfKind(es, Expense));
    Totals(totalIncome, totalExpense, totalIncome - totalExpense)
  }

  /** The summary handler: the summary of every entry the user owns. */
  function FinanceSummary(userId: UserId, store: seq<Entry>): (r: Outcome<Totals>)
    ensures r.Ok?
    ensures r.value.totalIncome == Total(OfKind(OwnedBy(store, userId), Income))
    ensures r.value.totalExpense == Total(OfKind(OwnedBy(store, userId), Expense))
    ensures r.value.balance == r.value.totalIncome - r.value.totalExpense
  {
    Ok(Summarize(OwnedBy(store, userId)))
  }

  function Plus(a: Totals, b: Totals): Totals
  {
    Totals(a.totalIncome + b.totalIncome, a.totalExpense + b.totalExpense, a.balance + b.balance)
  }

  /** The summary of two sequences of entries together is the sum of their summaries. */
  lemma SummarizeAppend(a: seq<Entry>, b: seq<Entry>)
    ensures Summarize(a + b) == Plus(Summarize(a), Summarize(b))
  {
    WhereAppend(a, b, KindIs(Income));
    WhereAppend(a, b, KindIs(Expense));
    assert OfKind(a + b, Income) == OfKind(a, Income) + OfKind(b, Income);
    assert OfKind(a + b, Expense) == OfKind(a, Expense) + OfKind(b, Expense);
    TotalAppend(OfKind(a, Income), OfKind(b, Income));
    TotalAppend(OfKind(a, Expense), OfKind(b, Expense));
  }

  /** The summary does not depend on the order in which the store returns entries. */
  lemma SummarizePermutation(a: seq<Entry>, b: seq<Entry>)
    requires multiset(a) == multiset(b)
    ensures Summarize(a) == Summarize(b)
  {
    WherePermutation(a, b, KindIs(Income));
    WherePermutation(a, b, KindIs(Expense));
    TotalPermutation(OfKind(a, Income), OfKind(b, Income));
    TotalPermutation(OfKind(a, Expense), OfKind(b, Expense));
  }

  /** One more entry adds its amount to the total of its own type only. */
  lemma SummarizeSnoc(es: seq<Entry>, x: Entry)
    ensures Summarize(es + [x]).totalIncome ==
      Summarize(es).totalIncome + (if x.kind == Income then x.amount else 0)
    ensures Summarize(es + [x]).totalExpense ==
      Summarize(es).totalExpense + (if x.kind == Expense then x.amount else 0)
  {
    KindSnoc(es, x, Income);
    KindSnoc(es, x, Expense);
  }

  lemma KindSnoc(es: seq<Entry>, x: Entry, kind: string)
    ensures Total(OfKind(es + [x], kind)) == Total(OfKind(es, kind)) + (if x.kind == kind then x.amount else 0)
  {
    WhereSnoc(es, x, KindIs(kind));
    if x.kind == kind {
      assert OfKind(es + [x], kind) == OfKind(es, kind) + [x];
      TotalSnoc(OfKind(es, kind), x);
    } else {
      assert OfKind(es + [x], kind) == OfKind(es, kind);
    }
  }

  /**
   * When every entry is income or expense, the two totals together are the
   * sum of all amounts.
   */
  lemma {:induction false} TotalsCoverAllAmounts(es: seq<Entry>)
    requires forall e :: e in es ==> e.kind == Income || e.kind == Expense
    ensures Summarize(es).totalIncome + Summarize(es).totalExpense == Total(es)
    decreases |es|
  {
    if es != [] {
      var init := es[..|es| - 1];
      var x := es[|es| - 1];
      assert es == init + [x];
      TotalsCoverAllAmounts(init);
      SummarizeSnoc(init, x);
      TotalSnoc(init, x);
    }
  }

  // ---------------------------------------------------------------------
  // Report over a period
  // ---------------------------------------------------------------------

  /** A date query parameter: its text (echoed back) and what `new Date(text)` gives. */
  datatype DateArg = DateArg(text: string, parsed: Instant)

  datatype Report = Report(startDate: string, endDate: string, totals: Totals)

  predicate Present(d: Option<DateArg>)
  {
    d.Some? && d.value.text != ""
  }

  /** The test `user == userId && createdAt >= start && createdAt <= end`. */
  function InPeriodTest(userId: UserId, start: int, end: int): Entry -> bool
  {
    (e: Entry) => e.owner == userId && start <= e.createdAt && e.createdAt <= end
  }

  /** The user's entries with `start <= createdAt <= end`. */
  function InPeriod(store: seq<Entry>, userId: UserId, start: int, end: int): (r: seq<Entry>)
    ensures forall e :: e in r <==> e in store && e.owner == userId && start <= e.createdAt <= end
  {
    WhereMembership(store, InPeriodTest(userId, start, end));
    Where(store, InPeriodTest(userId, start, end))
  }

  /**
   * The period report: both dates required, both must parse, the start may
   * not be after the end; then the summary over the inclusive period, with
   * the two date texts echoed.
   */
  function PeriodReport(userId: UserId, startDate: Option<DateArg>, endDate: Option<DateArg>, store: seq<Entry>)
    : (r: Outcome<Report>)
    ensures r == ValidationError(MissingDates) <==> !Present(startDate) || !Present(endDate)
    ensures r == ValidationError(BadDateFormat) <==>
      Present(startDate) && Present(endDate) && (startDate.value.parsed.Invalid? || endDate.value.parsed.Invalid?)
    ensures r == ValidationError(StartAfterEnd) <==>
      Present(startDate) && Present(endDate) && startDate.value.parsed.At? && endDate.value.parsed.At? &&
      startDate.value.parsed.ms > endDate.value.parsed.ms
    ensures r.Ok? || r.ValidationError?
    ensures r.Ok? ==>
      r.value.startDate == startDate.value.text && r.value.endDate == endDate.value.text &&
      r.value.totals == Summarize(InPeriod(store, userId, startDate.value.parsed.ms, endDate.value.parsed.ms))
  {
    if !Present(startDate) || !Present(endDate) then ValidationError(MissingDates)
    else
      var start := startDate.value.parsed;
      var end := endDate.value.parsed;
      if start.Invalid? || end.Invalid? then ValidationError(BadDateFormat)
      else if start.ms > end.ms then ValidationError(StartAfterEnd)
      else
        Ok(Report(startDate.value.text, endDate.value.text, Summarize(InPeriod(store, userId, start.ms, end.ms))))
  }

  /** Validation never looks at the store: a refusal is the same whatever it holds. */
  lemma ReportValidationIgnoresStore(userId: UserId, s: Option<DateArg>, e: Option<DateArg>, store1: seq<Entry>, store2: seq<Entry>)
    ensures PeriodReport(userId, s, e, store1).Ok? == PeriodReport(userId, s, e, store2).Ok?
    ensures !PeriodReport(userId, s, e, store1).Ok? ==> PeriodReport(userId, s, e, store1) == PeriodReport(userId, s, e, store2)
  {
  }

  /** Both ends of the period count: entries stamped exactly at start or at end are included. */
  lemma {:induction false} PeriodIsInclusive(userId: UserId, start: int, end: int, x: Entry, y: Entry)
    requires start <= end
    requires x.owner == userId && y.owner == userId
    requires x.createdAt == start && y.createdAt == end
    ensures InPeriod([x, y], userId, start, end) == [x, y]
  {
    var p := InPeriodTest(userId, start, end);
    WhereSnoc([], x, p);
    assert [x] + [y] == [x, y];
    WhereSnoc([x], y, p);
  }
}
