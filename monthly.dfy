/**
 * Monthly statistics for one year: twelve slots, one per UTC month, each
 * holding the income, the expense and the balance of the entries created in
 * that month, filled in one pass over the year's entries.
 */
module MonthlyStats {
  import opened Calendar
  import opened Ledger
  import opened Summary
  import Filter

  datatype MonthStat = MonthStat(month: int, totalIncome: int, totalExpense: int, balance: int)

  /** The test `createdAt.getUTCMonth() + 1 == m`. */
  function InMonthTest(m: int): Entry -> bool
  {
    (e: Entry) => UtcMonth(e.createdAt) == m
  }

  /** The entries whose UTC month is `m`. */
  function InMonth(es: seq<Entry>, m: int): (r: seq<Entry>)
    ensures forall e :: e in r <==> e in es && UtcMonth(e.createdAt) == m
  {
    WhereMembership(es, InMonthTest(m));
    Where(es, InMonthTest(m))
  }

  /** Slot `s` with the amount of `x` credited by its type and the balance recomputed. */
  function Credit(s: MonthStat, x: Entry): (r: MonthStat)
    ensures r.month == s.month && r.balance == r.totalIncome - r.totalExpense
  {
    var totalIncome := s.totalIncome + (if x.kind == Income then x.amount else 0);
    var totalExpense := s.totalExpense + (if x.kind == Expense then x.amount else 0);
    MonthStat(s.month, totalIncome, totalExpense, totalIncome - totalExpense)
  }

  /** Slot `m` after the entries `es`: the zeroed slot, credited with each entry of month `m`. */
  function MonthSlot(es: seq<Entry>, m: int): (r: MonthStat)
    ensures r.month == m
    ensures r.balance == r.totalIncome - r.totalExpense
  {
    if es == [] then MonthStat(m, 0, 0, 0)
    else
      var s := MonthSlot(es[..|es| - 1], m);
      var x := es[|es| - 1];
      if UtcMonth(x.createdAt) == m then Credit(s, x) else s
  }

  /** The twelve slots, January first. */
  function MonthTable(es: seq<Entry>): (t: seq<MonthStat>)
    ensures |t| == 12
    ensures forall j :: 0 <= j < 12 ==> t[j] == MonthSlot(es, j + 1)
  {
    seq(12, j requires 0 <= j < 12 => MonthSlot(es, j + 1))
  }

  /**
   * What slot `m` holds: month `m`, and the income, the expense and the
   * balance of the entries created in month `m`.
   */
  lemma {:induction false} MonthSlotMeaning(es: seq<Entry>, m: int)
    ensures var t := Summarize(InMonth(es, m));
      MonthSlot(es, m) == MonthStat(m, t.totalIncome, t.totalExpense, t.balance)
    decreases |es|
  {
    if es == [] {
      assert InMonth([], m) == [];
      assert OfKind([], Income) == [] && OfKind([], Expense) == [];
    } else {
      MonthSlotMeaning(es[..|es| - 1], m);
      MonthSummarySnoc(es, m);
    }
  }

  /** The summary of month `m` grows by the last entry exactly when that entry is of month `m`. */
  lemma MonthSummarySnoc(es: seq<Entry>, m: int)
    requires es != []
    ensures var init, x := es[..|es| - 1], es[|es| - 1];
      var before, after := Summarize(InMonth(init, m)), Summarize(InMonth(es, m));
      if UtcMonth(x.createdAt) == m then
        && after.totalIncome == before.totalIncome + (if x.kind == Income then x.amount else 0)
        && after.totalExpense == before.totalExpense + (if x.kind == Expense then x.amount else 0)
      else after == before
  {
    var init, x := es[..|es| - 1], es[|es| - 1];
    assert es == init + [x];
    WhereSnoc(init, x, InMonthTest(m));
    if UtcMonth(x.createdAt) == m {
      assert InMonth(es, m) == InMonth(init, m) + [x];
      SummarizeSnoc(InMonth(init, m), x);
    } else {
      assert InMonth(es, m) == InMonth(init, m);
    }
  }

  /** Slot `j` of the table summarises the entries of month `j + 1`. */
  lemma TableMeaning(es: seq<Entry>)
    ensures forall j :: 0 <= j < 12 ==>
      var t := Summarize(InMonth(es, j + 1));
      MonthTable(es)[j] == MonthStat(j + 1, t.totalIncome, t.totalExpense, t.balance)
  {
    forall j | 0 <= j < 12
      ensures var t := Summarize(InMonth(es, j + 1));
        MonthTable(es)[j] == MonthStat(j + 1, t.totalIncome, t.totalExpense, t.balance)
    {
      MonthSlotMeaning(es, j + 1);
    }
  }

  /** Before any entry the table is twelve zeroed slots. */
  lemma EmptyTable()
    ensures MonthTable([]) == seq(12, j requires 0 <= j < 12 => MonthStat(j + 1, 0, 0, 0))
  {
  }

  /** One more entry credits the slot of its own month and leaves the other eleven. */
  lemma TableSnoc(es: seq<Entry>, x: Entry)
    ensures var i := UtcMonth(x.createdAt) - 1;
      MonthTable(es + [x]) == MonthTable(es)[i := Credit(MonthTable(es)[i], x)]
  {
    assert (es + [x])[..|es + [x]| - 1] == es;
  }

  /**
   * The `forEach` over the year's entries: twelve zeroed slots, then each
   * entry credited to the slot of its UTC month.
   */
  method MonthlySlots(es: seq<Entry>) returns (stats: seq<MonthStat>)
    ensures stats == MonthTable(es)
    ensures |stats| == 12
    ensures forall j :: 0 <= j < 12 ==>
      var t := Summarize(InMonth(es, j + 1));
      stats[j] == MonthStat(j + 1, t.totalIncome, t.totalExpense, t.balance)
  {
    var slots := new MonthStat[12](i => MonthStat(i + 1, 0, 0, 0));
    EmptyTable();
    assert es[..0] == [];
    for k := 0 to |es|
      invariant slots[..] == MonthTable(es[..k])
    {
      var item := es[k];
      assert es[..k + 1] == es[..k] + [item];
      TableSnoc(es[..k], item);
      ghost var before := slots[..];
      var monthIndex := UtcMonth(item.createdAt) - 1;
      if item.kind == Income {
        slots[monthIndex] := slots[monthIndex].(totalIncome := slots[monthIndex].totalIncome + item.amount);
      } else if item.kind == Expense {
        slots[monthIndex] := slots[monthIndex].(totalExpense := slots[monthIndex].totalExpense + item.amount);
      }
      slots[monthIndex] := slots[monthIndex].(balance := slots[monthIndex].totalIncome - slots[monthIndex].totalExpense);
      assert slots[..] == before[monthIndex := Credit(before[monthIndex], item)];
    }
    assert es[..|es|] == es;
    stats := slots[..];
    TableMeaning(es);
  }

  /** The test `user == userId && start <= createdAt < end`. */
  function InYearTest(userId: UserId, start: int, end: int): Entry -> bool
  {
    (e: Entry) => e.owner == userId && start <= e.createdAt < end
  }

  /** The user's entries of `[Jan 1 of year, Jan 1 of year + 1)`. */
  function InYear(store: seq<Entry>, userId: UserId, year: int): (r: seq<Entry>)
    ensures forall e :: e in r <==>
      e in store && e.owner == userId && MonthStart(year, 1) <= e.createdAt < MonthStart(year + 1, 1)
  {
    WhereMembership(store, InYearTest(userId, MonthStart(year, 1), MonthStart(year + 1, 1)));
    Where(store, InYearTest(userId, MonthStart(year, 1), MonthStart(year + 1, 1)))
  }

  /**
   * The monthly-statistics handler: a year is required; the two year
   * boundaries are built as ISO dates, and when one of them is not a valid
   * date the store refuses the query; otherwise the twelve slots over the
   * user's entries of that year.
   */
  method GetMonthlyStats(userId: UserId, year: Option<int>, store: seq<Entry>)
    returns (r: Outcome<seq<MonthStat>>)
    ensures r == ValidationError(MissingYear) <==> year.None?
    ensures r == ServerError <==> year.Some? && !(1000 <= year.value <= 9998)
    ensures r.Ok? || r == ValidationError(MissingYear) || r == ServerError
    ensures r.Ok? ==> r.value == MonthTable(InYear(store, userId, year.value))
    ensures r.Ok? ==> |r.value| == 12 && forall j :: 0 <= j < 12 ==>
      var t := Summarize(InMonth(InYear(store, userId, year.value), j + 1));
      r.value[j] == MonthStat(j + 1, t.totalIncome, t.totalExpense, t.balance)
  {
    if year.None? {
      return ValidationError(MissingYear);
    }
    var startOfYear := IsoMonthStart(year.value, 1);
    var endOfYear := IsoMonthStart(year.value + 1, 1);
    if startOfYear.Invalid? || endOfYear.Invalid? {
      return ServerError;
    }
    var finances := Where(store, InYearTest(userId, startOfYear.ms, endOfYear.ms));
    var stats := MonthlySlots(finances);
    r := Ok(stats);
  }

  // ---------------------------------------------------------------------
  // The twelve slots add up to the year
  // ---------------------------------------------------------------------

  function IncomeOf(s: MonthStat): int { s.totalIncome }
  function ExpenseOf(s: MonthStat): int { s.totalExpense }

  /** The sum of one field over the slots. */
  function SumField(s: seq<MonthStat>, f: MonthStat -> int): int
  {
    if s == [] then 0 else SumField(s[..|s| - 1], f) + f(s[|s| - 1])
  }

  /** Changing one slot's field by `d` changes the sum by `d`. */
  lemma {:induction false} SumFieldBump(s: seq<MonthStat>, t: seq<MonthStat>, i: int, f: MonthStat -> int, d: int)
    requires |s| == |t| && 0 <= i < |s|
    requires forall j :: 0 <= j < |s| && j != i ==> f(t[j]) == f(s[j])
    requires f(t[i]) == f(s[i]) + d
    ensures SumField(t, f) == SumField(s, f) + d
    decreases |s|
  {
    var n := |s| - 1;
    if i < n {
      SumFieldBump(s[..n], t[..n], i, f, d);
    } else {
      SumFieldUnchanged(s[..n], t[..n], f);
    }
  }

  lemma {:induction false} SumFieldUnchanged(s: seq<MonthStat>, t: seq<MonthStat>, f: MonthStat -> int)
    requires |s| == |t|
    requires forall j :: 0 <= j < |s| ==> f(t[j]) == f(s[j])
    ensures SumField(t, f) == SumField(s, f)
    decreases |s|
  {
    if s != [] {
      SumFieldUnchanged(s[..|s| - 1], t[..|t| - 1], f);
    }
  }

  /**
   * Every instant has a UTC month, so the twelve slots together hold every
   * entry: their incomes add up to the total income and their expenses to
   * the total expense.
   */
  lemma {:induction false} MonthsAddUpToYear(es: seq<Entry>)
    ensures SumField(MonthTable(es), IncomeOf) == Summarize(es).totalIncome
    ensures SumField(MonthTable(es), ExpenseOf) == Summarize(es).totalExpense
    decreases |es|
  {
    if es == [] {
      EmptyTable();
      SumFieldZero(MonthTable(es), IncomeOf);
      SumFieldZero(MonthTable(es), ExpenseOf);
      assert OfKind([], Income) == [] && OfKind([], Expense) == [];
    } else {
      var init, x := es[..|es| - 1], es[|es| - 1];
      assert es == init + [x];
      MonthsAddUpToYear(init);
      SummarizeSnoc(init, x);
      TableSumsSnoc(init, x);
    }
  }

  /** One more entry adds its amount to the sum of its own type over the twelve slots. */
  lemma TableSumsSnoc(es: seq<Entry>, x: Entry)
    ensures SumField(MonthTable(es + [x]), IncomeOf) ==
      SumField(MonthTable(es), IncomeOf) + (if x.kind == Income then x.amount else 0)
    ensures SumField(MonthTable(es + [x]), ExpenseOf) ==
      SumField(MonthTable(es), ExpenseOf) + (if x.kind == Expense then x.amount else 0)
  {
    var before, after := MonthTable(es), MonthTable(es + [x]);
    TableSnoc(es, x);
    var i := UtcMonth(x.createdAt) - 1;
    assert after == before[i := Credit(before[i], x)];
    SumFieldBump(before, after, i, IncomeOf, if x.kind == Income then x.amount else 0);
    SumFieldBump(before, after, i, ExpenseOf, if x.kind == Expense then x.amount else 0);
  }

  lemma {:induction false} SumFieldZero(s: seq<MonthStat>, f: MonthStat -> int)
    requires forall j :: 0 <= j < |s| ==> f(s[j]) == 0
    ensures SumField(s, f) == 0
    decreases |s|
  {
    if s != [] {
      SumFieldZero(s[..|s| - 1], f);
    }
  }

  // ---------------------------------------------------------------------
  // Agreement with the filtered listing
  // ---------------------------------------------------------------------

  /** The listing's parameters `?year=y&month=m` and nothing else. */
  function YearMonthParams(y: int, m: int): Filter.FilterParams
  {
    Filter.FilterParams(None, Some(m), Some(y), None, None, None, None, None, None)
  }

  /**
   * Slot `m` of year `y` summarises exactly the entries that the filtered
   * listing returns for `?year=y&month=m`.
   */
  lemma MonthSlotAgreesWithListing(userId: UserId, y: int, m: int, currentYear: int, store: seq<Entry>)
    requires 1000 <= y <= 9998 && 1 <= m <= 12
    ensures Filter.DateWindow(YearMonthParams(y, m), currentYear).Some?
    ensures var w := Filter.DateWindow(YearMonthParams(y, m), currentYear).value;
      var t := Summarize(Filter.SelectedEntries(userId, YearMonthParams(y, m), w, store));
      MonthSlot(InYear(store, userId, y), m) == MonthStat(m, t.totalIncome, t.totalExpense, t.balance)
  {
    MonthOfYearIsListing(userId, y, m, currentYear, store);
    MonthSlotMeaning(InYear(store, userId, y), m);
  }

  /** The entries of month `m` among the user's entries of year `y` are the listing's, in the same order. */
  lemma MonthOfYearIsListing(userId: UserId, y: int, m: int, currentYear: int, store: seq<Entry>)
    requires 1000 <= y <= 9998 && 1 <= m <= 12
    ensures Filter.DateWindow(YearMonthParams(y, m), currentYear).Some?
    ensures InMonth(InYear(store, userId, y), m) ==
      Filter.SelectedEntries(userId, YearMonthParams(y, m), Filter.DateWindow(YearMonthParams(y, m), currentYear).value, store)
  {
    var p := YearMonthParams(y, m);
    var w := Filter.DateWindow(p, currentYear).value;
    assert w == Filter.MonthWindow(y, m).value;
    var yearTest := InYearTest(userId, MonthStart(y, 1), MonthStart(y + 1, 1));
    var both := Filter.SelectedTest(userId, p, w);
    forall e | e in store ensures both(e) == (yearTest(e) && InMonthTest(m)(e)) {
      Filter.MonthsPartitionYear(y, e.createdAt);
      if Filter.InWindow(w, e.createdAt) {
        UtcMonthInWindow(y, m, e.createdAt);
      }
    }
    WhereWhere(store, yearTest, InMonthTest(m), both);
  }
}
