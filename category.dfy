/**
 * Statistics per category: a dictionary from each category that occurs to
 * the total and the number of its entries, accumulated in one pass.
 */
module CategoryStats {
  import opened Ledger
  import opened Summary

  datatype CategoryStat = CategoryStat(total: int, count: nat)

  /** The test `item.category === category`. */
  function CategoryIs(category: string): Entry -> bool
  {
    (e: Entry) => e.category == category
  }

  function InCategory(es: seq<Entry>, category: string): (r: seq<Entry>)
    ensures forall e :: e in r <==> e in es && e.category == category
  {
    WhereMembership(es, CategoryIs(category));
    Where(es, CategoryIs(category))
  }

  /** The categories that occur among the entries, added one entry at a time. */
  function CategoriesOf(es: seq<Entry>): set<string>
  {
    if es == [] then {} else CategoriesOf(es[..|es| - 1]) + {es[|es| - 1].category}
  }

  /** Total and number of the entries of one category, added one entry at a time. */
  function StatOf(es: seq<Entry>, category: string): CategoryStat
  {
    if es == [] then CategoryStat(0, 0)
    else
      var s := StatOf(es[..|es| - 1], category);
      var x := es[|es| - 1];
      if x.category == category then CategoryStat(s.total + x.amount, s.count + 1) else s
  }

  /**
   * The `reduce` over the entries: create the slot of an unseen category,
   * then add the amount to its total and one to its count.
   */
  method CategoryStats(es: seq<Entry>) returns (stats: map<string, CategoryStat>)
    ensures forall c :: c in stats <==> exists e :: e in es && e.category == c
    ensures forall c :: c in stats ==>
      stats[c].total == Total(InCategory(es, c)) && stats[c].count == |InCategory(es, c)|
  {
    stats := map[];
    assert StatsOf(es[..0]) == map[];
    for i := 0 to |es|
      invariant stats == StatsOf(es[..i])
    {
      var curr := es[i];
      assert es[..i + 1] == es[..i] + [curr];
      StatsOfSnoc(es[..i], curr);
      if curr.category !in stats {
        stats := stats[curr.category := CategoryStat(0, 0)];
      }
      var slot := stats[curr.category];
      slot := slot.(total := slot.total + curr.amount);
      slot := slot.(count := slot.count + 1);
      stats := stats[curr.category := slot];
    }
    assert es[..|es|] == es;
    CategoriesOfMeaning(es);
    forall c | c in stats ensures stats[c] == StatOf(es, c) == CategoryStat(Total(InCategory(es, c)), |InCategory(es, c)|) {
      StatOfMeaning(es, c);
    }
  }

  /** The category-statistics handler, over all of the user's entries. */
  method GetCategoryStats(userId: UserId, store: seq<Entry>) returns (r: Outcome<map<string, CategoryStat>>)
    ensures r.Ok?
    ensures forall c :: c in r.value <==> exists e :: e in store && e.owner == userId && e.category == c
    ensures forall c :: c in r.value ==>
      && r.value[c].total == Total(InCategory(OwnedBy(store, userId), c))
      && r.value[c].count == |InCategory(OwnedBy(store, userId), c)|
  {
    var stats := CategoryStats(OwnedBy(store, userId));
    r := Ok(stats);
  }

  /** One more entry changes the statistics of its own category only. */
  lemma StatStep(es: seq<Entry>, x: Entry)
    ensures CategoriesOf(es + [x]) == CategoriesOf(es) + {x.category}
    ensures StatOf(es + [x], x.category) ==
      CategoryStat(StatOf(es, x.category).total + x.amount, StatOf(es, x.category).count + 1)
    ensures forall c :: c != x.category ==> StatOf(es + [x], c) == StatOf(es, c)
  {
    assert (es + [x])[..|es + [x]| - 1] == es;
  }

  /** A category that does not occur has no entries and a zero total. */
  lemma {:induction false} AbsentCategory(es: seq<Entry>, c: string)
    requires c !in CategoriesOf(es)
    ensures StatOf(es, c) == CategoryStat(0, 0)
    decreases |es|
  {
    if es != [] {
      AbsentCategory(es[..|es| - 1], c);
    }
  }

  /** The categories are exactly those of the entries. */
  lemma {:induction false} CategoriesOfMeaning(es: seq<Entry>)
    ensures forall c :: c in CategoriesOf(es) <==> exists e :: e in es && e.category == c
    decreases |es|
  {
    if es != [] {
      var init, x := es[..|es| - 1], es[|es| - 1];
      assert es == init + [x];
      CategoriesOfMeaning(init);
      forall c | c in CategoriesOf(es) ensures exists e :: e in es && e.category == c {
        if c != x.category {
          assert c in CategoriesOf(init);
          var e :| e in init && e.category == c;
          assert e in es;
        }
      }
    }
  }

  /** The statistics of a category are the sum and the number of its entries. */
  lemma {:induction false} StatOfMeaning(es: seq<Entry>, c: string)
    ensures StatOf(es, c) == CategoryStat(Total(InCategory(es, c)), |InCategory(es, c)|)
    decreases |es|
  {
    if es != [] {
      var init, x := es[..|es| - 1], es[|es| - 1];
      assert es == init + [x];
      StatOfMeaning(init, c);
      WhereSnoc(init, x, CategoryIs(c));
      var group := InCategory(init, c);
      if x.category == c {
        assert InCategory(es, c) == group + [x];
        TotalSnoc(group, x);
      } else {
        assert InCategory(es, c) == group;
      }
    }
  }

  /** The statistics of `es` as a dictionary value. */
  ghost function StatsOf(es: seq<Entry>): map<string, CategoryStat>
  {
    map c | c in CategoriesOf(es) :: StatOf(es, c)
  }

  /** One more entry updates the dictionary at its own category only. */
  lemma StatsOfSnoc(es: seq<Entry>, x: Entry)
    ensures x.category !in StatsOf(es) ==> StatOf(es, x.category) == CategoryStat(0, 0)
    ensures StatsOf(es + [x]) ==
      StatsOf(es)[x.category := CategoryStat(StatOf(es, x.category).total + x.amount, StatOf(es, x.category).count + 1)]
  {
    StatStep(es, x);
    if x.category !in CategoriesOf(es) {
      AbsentCategory(es, x.category);
    }
    var lhs := StatsOf(es + [x]);
    var rhs := StatsOf(es)[x.category := CategoryStat(StatOf(es, x.category).total + x.amount, StatOf(es, x.category).count + 1)];
    assert lhs.Keys == rhs.Keys;
    forall c | c in lhs ensures lhs[c] == rhs[c] {
      if c != x.category {
        assert lhs[c] == StatOf(es + [x], c) == StatOf(es, c);
      }
    }
  }

  // ---------------------------------------------------------------------
  // The statistics add up to the whole
  // ---------------------------------------------------------------------

  function PlusStat(a: CategoryStat, b: CategoryStat): CategoryStat
  {
    CategoryStat(a.total + b.total, a.count + b.count)
  }

  /** Totals and counts summed over every key of the dictionary. */
  ghost function SumStats(m: map<string, CategoryStat>): CategoryStat
    decreases |m|
  {
    if m == map[] then CategoryStat(0, 0)
    else
      var k :| k in m;
      assert |m - {k}| < |m| by {
        assert (m - {k}).Keys == m.Keys - {k};
      }
      PlusStat(m[k], SumStats(m - {k}))
  }

  /** The sum may start from any key. */
  lemma {:induction false} SumStatsRemove(m: map<string, CategoryStat>, k: string)
    requires k in m
    ensures SumStats(m) == PlusStat(m[k], SumStats(m - {k}))
    decreases |m|
  {
    var j :| j in m && SumStats(m) == PlusStat(m[j], SumStats(m - {j}));
    if j != k {
      var mj, mk := m - {j}, m - {k};
      assert mj.Keys == m.Keys - {j};
      assert mk.Keys == m.Keys - {k};
      assert k in mj && mj[k] == m[k];
      assert j in mk && mk[j] == m[j];
      SumStatsRemove(mj, k);
      SumStatsRemove(mk, j);
      assert mj - {k} == mk - {j};
      var rest := SumStats(mj - {k});
      assert SumStats(m) == PlusStat(m[j], PlusStat(m[k], rest));
      assert SumStats(mk) == PlusStat(m[j], rest);
    }
  }

  /**
   * Over all keys, the category totals sum to the sum of every amount and
   * the counts to the number of entries.
   */
  lemma {:induction false} SumOfStats(es: seq<Entry>)
    ensures SumStats(StatsOf(es)) == CategoryStat(Total(es), |es|)
    decreases |es|
  {
    if es == [] {
      assert StatsOf(es) == map[];
    } else {
      var init := es[..|es| - 1];
      var x := es[|es| - 1];
      var k := x.category;
      assert es == init + [x];
      SumOfStats(init);
      StatsOfSnoc(init, x);
      TotalSnoc(init, x);
      var before := StatsOf(init);
      var v := CategoryStat(StatOf(init, k).total + x.amount, StatOf(init, k).count + 1);
      var after := before[k := v];
      assert StatsOf(es) == after;
      assert after - {k} == before - {k};
      SumStatsRemove(after, k);
      if k in before {
        SumStatsRemove(before, k);
        assert before[k] == StatOf(init, k);
      } else {
        assert before - {k} == before;
      }
    }
  }

  /**
   * What a caller of `CategoryStats` gets: when every entry is income or
   * expense, the category totals over all keys add up to total income plus
   * total expense, and the counts to the number of entries.
   */
  lemma CategoryTotalsMatchSummary(es: seq<Entry>, stats: map<string, CategoryStat>)
    requires forall c :: c in stats <==> exists e :: e in es && e.category == c
    requires forall c :: c in stats ==>
      stats[c].total == Total(InCategory(es, c)) && stats[c].count == |InCategory(es, c)|
    requires forall e :: e in es ==> e.kind == Income || e.kind == Expense
    ensures SumStats(stats).total == Summarize(es).totalIncome + Summarize(es).totalExpense
    ensures SumStats(stats).count == |es|
  {
    CategoriesOfMeaning(es);
    forall c | c in stats ensures stats[c] == StatOf(es, c) {
      StatOfMeaning(es, c);
    }
    assert stats == StatsOf(es);
    SumOfStats(es);
    TotalsCoverAllAmounts(es);
  }
}
