/** The dashboard snapshot of `GET /api/expenses/stats`: the all-time total,
    the total of the month named by the query, the series of monthly totals
    since the start of the month five months back, and the category
    breakdown. "Now" is a parameter. */
module Stats {
  import opened Wrappers
  import opened Calendar
  import opened ExpenseModel
  import opened Queries

  /** The `month` and `year` query parameters after `parseInt`; `None` for a
      parameter that is absent or empty (falsy). */
  datatype StatsQuery = StatsQuery(month: Option<int>, year: Option<int>)

  datatype Snapshot = Snapshot(totalExpenses: int, monthlyTotal: int,
                               monthlyData: seq<MonthTotal>, categoryData: seq<CategoryTotal>)

  /** `new Date(year, month - 1, 1)`: the first instant of the window. */
  function WindowStart(month: int, year: int): Instant {
    Instant(MakeDay(ConstructorYear(year), month - 1, 1), 0)
  }

  /** `new Date(year, month, 0, 23, 59, 59, 999)`: day 0 of the following
      month is the last day of this one. */
  function WindowEnd(month: int, year: int): Instant {
    Instant(MakeDay(ConstructorYear(year), month, 0), EndOfDayMs)
  }

  predicate InWindow(month: int, year: int, e: Expense) {
    AtOrBefore(WindowStart(month, year), e.date) && AtOrBefore(e.date, WindowEnd(month, year))
  }

  /** The window is exactly one calendar month: the one `month - 1` months
      after January of the constructor year (so month 13 is January of the
      next year and month 0 December of the previous one). */
  lemma WindowIsOneMonth(month: int, year: int, t: Time)
    ensures AtOrBefore(WindowStart(month, year), t) && AtOrBefore(t, WindowEnd(month, year))
            <==> MonthIndex(t.day.year, t.day.month) == ConstructorYear(year) * 12 + month - 1
  {
    var y := ConstructorYear(year);
    MakeDayFirst(y, month - 1);
    MakeDayZero(y, month);
    OnOrAfterMonthStart(t, WindowStart(month, year).day);
    OnOrBeforeMonthEnd(t, WindowEnd(month, year).day);
  }

  /** With an ordinary month number and a four-digit year, the window holds
      exactly the records dated in that month of that year. */
  lemma WindowIsNamedMonth(month: int, year: int, e: Expense)
    requires 1 <= month <= 12 && year > 99
    ensures InWindow(month, year, e) <==> e.date.day.year == year && e.date.day.month == month
  {
    WindowIsOneMonth(month, year, e.date);
  }

  /** The `monthlyTotal` field: the window is applied only when both `month`
      and `year` are given; otherwise the `$match` stage is empty and every
      record counts. */
  function MonthlyTotal(store: Store, q: StatsQuery): (r: int)
    ensures q.month.None? || q.year.None? ==> r == Total(store)
  {
    if q.month.Some? && q.year.Some? then
      Total(Select(store, (e: Expense) => InWindow(q.month.value, q.year.value, e)))
    else
      Total(store)
  }

  lemma {:induction false} SelectCongruent(es: Store, p: Expense -> bool, p': Expense -> bool)
    requires forall e :: e in es ==> p(e) == p'(e)
    ensures Select(es, p) == Select(es, p')
  {
    if es != [] {
      assert es[0] in es;
      assert forall e :: e in es[1..] ==> e in es;
      SelectCongruent(es[1..], p, p');
    }
  }

  /** With both parameters present, `monthlyTotal` sums exactly the records
      of the named calendar month. */
  lemma MonthlyTotalIsMonthSum(store: Store, month: int, year: int)
    requires 1 <= month <= 12 && year > 99
    ensures MonthlyTotal(store, StatsQuery(Some(month), Some(year)))
            == Total(Select(store, (e: Expense) => e.date.day.year == year && e.date.day.month == month))
    ensures MonthlyTotal(store, StatsQuery(Some(month), Some(year))) == SumMonth(store, MonthKey(year, month))
  {
    forall e | e in store
      ensures InWindow(month, year, e) == (e.date.day.year == year && e.date.day.month == month)
    {
      WindowIsNamedMonth(month, year, e);
    }
    SelectCongruent(store, (e: Expense) => InWindow(month, year, e),
                    (e: Expense) => e.date.day.year == year && e.date.day.month == month);
    SelectedMonthTotal(store, (e: Expense) => e.date.day.year == year && e.date.day.month == month,
                       MonthKey(year, month));
  }

  lemma NamedMonthTotal(store: Store, q: StatsQuery)
    ensures q.month.Some? && q.year.Some? && 1 <= q.month.value <= 12 && q.year.value > 99 ==>
              MonthlyTotal(store, q) == SumMonth(store, MonthKey(q.year.value, q.month.value))
  {
    if q.month.Some? && q.year.Some? && 1 <= q.month.value <= 12 && q.year.value > 99 {
      MonthlyTotalIsMonthSum(store, q.month.value, q.year.value);
    }
  }

  /** Selecting exactly one month's records and summing them is that
      month's sum. */
  lemma {:induction false} SelectedMonthTotal(es: Store, keep: Expense -> bool, k: MonthKey)
    requires forall e :: e in es ==> (keep(e) <==> MonthOf(e) == k)
    ensures Total(Select(es, keep)) == SumMonth(es, k)
  {
    if es != [] {
      assert es[0] in es;
      assert forall e :: e in es[1..] ==> e in es;
      SelectedMonthTotal(es[1..], keep, k);
      var head := if keep(es[0]) then [es[0]] else [];
      var rest := Select(es[1..], keep);
      assert Select(es, keep) == head + rest;
      TotalAppend(head, rest);
      assert head != [] ==> head[1..] == [];
    }
  }

  // ---------------------------------------------------------------------
  // The six-month series

  /** The series' lower bound as the code computes it: `setMonth(getMonth()
      - 5)` keeps today's day of the month, which carries into the next
      month when that month is shorter; `setDate(1)` then lands on the first
      of the carried-into month. */
  function SeriesStartAsWritten(now: Time): (r: Instant)
    ensures r.day.day == 1 && r.ms == 0
  {
    var shifted := MakeDay(now.day.year, now.day.month - 1 - 5, now.day.day);
    Instant(Day(shifted.year, shifted.month, 1), 0)
  }

  /** The series' lower bound: midnight on day 1 of the month five months
      before the current one. */
  function SeriesStart(now: Time): (r: Instant)
    ensures ValidInstant(r) && r.day.day == 1 && r.ms == 0
    ensures MonthIndex(r.day.year, r.day.month) == MonthIndex(now.day.year, now.day.month) - 5
  {
    MakeDayFirst(now.day.year, now.day.month - 1 - 5);
    Instant(MakeDay(now.day.year, now.day.month - 1 - 5, 1), 0)
  }

  /** The month five months back, as (year, month). */
  function TargetMonth(now: Time): (k: MonthKey)
    ensures 1 <= k.month <= 12
    ensures MonthIndex(k.year, k.month) == MonthIndex(now.day.year, now.day.month) - 5
  {
    var mi := now.day.month - 1 - 5;
    MonthKey(now.day.year + mi / 12, mi % 12 + 1)
  }

  /** The code as written agrees with the intended bound exactly when today's
      day of the month exists in the month five months back. */
  lemma SeriesStartAsWrittenAgreesIff(now: Time)
    ensures SeriesStartAsWritten(now) == SeriesStart(now)
            <==> now.day.day <= DaysInMonth(TargetMonth(now).year, TargetMonth(now).month)
  {
    var k := TargetMonth(now);
    MakeDayFirst(now.day.year, now.day.month - 1 - 5);
  }

  /** On 31 July 2024 the code starts the series on 1 March, leaving
      February (five months back) out. */
  lemma SeriesStartAsWrittenSkipsAMonth()
    ensures SeriesStartAsWritten(Instant(Day(2024, 7, 31), 0)) == Instant(Day(2024, 3, 1), 0)
    ensures SeriesStart(Instant(Day(2024, 7, 31), 0)) == Instant(Day(2024, 2, 1), 0)
  {
    var now: Time := Instant(Day(2024, 7, 31), 0);
    assert MakeDay(2024, 1, 31) == CarryDays(2024, 2, 31);
    assert CarryDays(2024, 2, 31) == CarryDays(2024, 3, 2);
    assert MakeDay(2024, 1, 1) == Day(2024, 2, 1);
  }

  /** Whenever today's day of the month is past the end of the month five
      months back, the code starts the series on the first of the month
      after it, leaving that month out. */
  lemma SeriesStartAsWrittenSkips(now: Time)
    requires now.day.day > DaysInMonth(TargetMonth(now).year, TargetMonth(now).month)
    ensures SeriesStartAsWritten(now).day.day == 1
    ensures MonthIndex(SeriesStartAsWritten(now).day.year, SeriesStartAsWritten(now).day.month)
            == MonthIndex(TargetMonth(now).year, TargetMonth(now).month) + 1
  {
    var k := TargetMonth(now);
    assert MakeDay(now.day.year, now.day.month - 1 - 5, now.day.day) == CarryDays(k.year, k.month, now.day.day);
    CarryOneMonth(k.year, k.month, now.day.day);
  }

  predicate InSeries(now: Time, e: Expense) {
    AtOrBefore(SeriesStart(now), e.date)
  }

  /** The `$match: { date: { $gte: sixMonthsAgo } }` stage. */
  function SeriesFilter(now: Time): Expense -> bool {
    (e: Expense) => InSeries(now, e)
  }

  /** A record is in the series exactly when its month is at most five
      months before the current one; there is no upper bound. */
  lemma InSeriesByMonth(now: Time, e: Expense)
    ensures InSeries(now, e) <==> MonthIndex(e.date.day.year, e.date.day.month) >= MonthIndex(now.day.year, now.day.month) - 5
  {
    OnOrAfterMonthStart(e.date, SeriesStart(now).day);
  }

  function MonthlyData(store: Store, now: Time): (r: seq<MonthTotal>)
    ensures Ascending(r)
  {
    GroupByMonth(Select(store, SeriesFilter(now)))
  }

  /** Records from a month inside the series are all selected, so the
      selection's sum for that month is the store's. */
  lemma {:induction false} SeriesMonthSum(store: Store, now: Time, k: MonthKey)
    requires MonthIndex(k.year, k.month) >= MonthIndex(now.day.year, now.day.month) - 5
    ensures SumMonth(Select(store, SeriesFilter(now)), k) == SumMonth(store, k)
  {
    if store != [] {
      var e := store[0];
      var keep := SeriesFilter(now);
      var rest := Select(store[1..], keep);
      var own := if MonthOf(e) == k then e.amount else 0;
      assert SumMonth(store, k) == own + SumMonth(store[1..], k);
      SeriesMonthSum(store[1..], now, k);
      InSeriesByMonth(now, e);
      if keep(e) {
        assert Select(store, keep) == [e] + rest;
        assert SumMonth([e] + rest, k) == own + SumMonth(rest, k) by {
          assert ([e] + rest)[0] == e;
          assert ([e] + rest)[1..] == rest;
        }
      } else {
        assert Select(store, keep) == rest;
        assert own == 0;
      }
    }
  }

  /** The months of the selected records are the store's months from five
      months back onward. */
  lemma SeriesMonths(store: Store, now: Time)
    ensures forall k :: k in MonthsOf(Select(store, SeriesFilter(now))) <==>
              k in MonthsOf(store) && MonthIndex(k.year, k.month) >= MonthIndex(now.day.year, now.day.month) - 5
  {
    var sel := Select(store, SeriesFilter(now));
    forall k | k in MonthsOf(store) && MonthIndex(k.year, k.month) >= MonthIndex(now.day.year, now.day.month) - 5
      ensures k in MonthsOf(sel)
    {
      var e :| e in store && MonthOf(e) == k;
      InSeriesByMonth(now, e);
      assert e in sel;
    }
    forall k | k in MonthsOf(sel)
      ensures k in MonthsOf(store) && MonthIndex(k.year, k.month) >= MonthIndex(now.day.year, now.day.month) - 5
    {
      var e :| e in sel && MonthOf(e) == k;
      InSeriesByMonth(now, e);
    }
  }

  /** `monthlyData`: ascending distinct (year, month) keys, exactly the
      months from five months back onward that have a record, each holding
      that month's total over the whole store. */
  lemma MonthlySeries(store: Store, now: Time)
    ensures forall k :: k in KeysOf(MonthlyData(store, now)) <==>
              k in MonthsOf(store) && MonthIndex(k.year, k.month) >= MonthIndex(now.day.year, now.day.month) - 5
    ensures forall i :: 0 <= i < |MonthlyData(store, now)| ==>
              MonthlyData(store, now)[i].total == SumMonth(store, MonthlyData(store, now)[i].key)
  {
    var r := MonthlyData(store, now);
    SeriesMonths(store, now);
    forall i | 0 <= i < |r| ensures r[i].total == SumMonth(store, r[i].key) {
      AscendingBucketTotal(r, i);
      assert r[i].key in KeysOf(r);
      SeriesMonthSum(store, now, r[i].key);
    }
  }

  // ---------------------------------------------------------------------
  // The snapshot

  /** The dashboard snapshot: the all-time total; the month's total, which
      is the all-time total unless both `month` and `year` are given; the
      six-month series; and the per-category totals, largest first. */
  function ComputeStats(store: Store, q: StatsQuery, now: Time): (s: Snapshot)
    ensures s.totalExpenses == Total(store)
    ensures q.month.None? || q.year.None? ==> s.monthlyTotal == s.totalExpenses
    ensures q.month.Some? && q.year.Some? && 1 <= q.month.value <= 12 && q.year.value > 99 ==>
              s.monthlyTotal == SumMonth(store, MonthKey(q.year.value, q.month.value))
    ensures NonIncreasing(s.categoryData)
    ensures SumTotals(s.categoryData) == s.totalExpenses
    ensures forall c :: CountCategory(s.categoryData, c) == if Occurs(store, c) then 1 else 0
    ensures forall b :: b in s.categoryData ==> b.total == SumCategory(store, b.category)
    ensures Ascending(s.monthlyData)
    ensures forall k :: k in KeysOf(s.monthlyData) <==>
              k in MonthsOf(store) && MonthIndex(k.year, k.month) >= MonthIndex(now.day.year, now.day.month) - 5
    ensures forall i :: 0 <= i < |s.monthlyData| ==> s.monthlyData[i].total == SumMonth(store, s.monthlyData[i].key)
  {
    CategoryBreakdown(store);
    MonthlySeries(store, now);
    NamedMonthTotal(store, q);
    Snapshot(Total(store), MonthlyTotal(store, q), MonthlyData(store, now), GroupByCategory(store))
  }

  lemma {:induction false} NoCategoryBucketsWhenEmpty(cats: seq<Category>)
    ensures CategoryBuckets([], cats) == []
  {
    if cats != [] {
      assert !Occurs([], cats[0]);
      NoCategoryBucketsWhenEmpty(cats[1..]);
    }
  }

  /** An empty store gives a defined all-zero snapshot, not an error. */
  lemma EmptyStoreSnapshot(q: StatsQuery, now: Time)
    ensures ComputeStats([], q, now) == Snapshot(0, 0, [], [])
  {
    NoCategoryBucketsWhenEmpty(Categories);
    assert MonthlyData([], now) == [];
  }
}
