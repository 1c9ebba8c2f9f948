/** The query machinery the routes ask of the document store, over a store
    modelled as a sequence of records: selection, summation, sorting by date
    and the two `$group` stages (by calendar month and by category). */
module Queries {
  import opened Calendar
  import opened ExpenseModel

  type Store = seq<Expense>

  /** `$match`: the records satisfying `keep`, in store order. */
  function Select(es: Store, keep: Expense -> bool): (r: Store)
    ensures forall e :: e in r <==> e in es && keep(e)
    ensures forall e :: multiset(r)[e] == if keep(e) then multiset(es)[e] else 0
  {
    if es == [] then []
    else
      assert es == [es[0]] + es[1..];
      assert multiset(es) == multiset{es[0]} + multiset(es[1..]);
      (if keep(es[0]) then [es[0]] else []) + Select(es[1..], keep)
  }

  /** Selection keeps store order: selecting from two stores joined is
      joining their selections. */
  lemma {:induction false} SelectAppend(a: Store, b: Store, keep: Expense -> bool)
    ensures Select(a + b, keep) == Select(a, keep) + Select(b, keep)
  {
    if a != [] {
      var head := if keep(a[0]) then [a[0]] else [];
      assert (a + b)[0] == a[0];
      assert (a + b)[1..] == a[1..] + b;
      SelectAppend(a[1..], b, keep);
      var x, y := Select(a[1..], keep), Select(b, keep);
      assert Select(a + b, keep) == head + (x + y);
      assert Select(a, keep) == head + x;
      ConcatAssoc(head, x, y);
    } else {
      assert a + b == b;
    }
  }

  lemma ConcatAssoc(h: Store, x: Store, y: Store)
    ensures h + (x + y) == (h + x) + y
  {
  }

  /** `$sum: '$amount'` over a group; an empty group sums to 0. */
  function Total(es: Store): int {
    if es == [] then 0 else es[0].amount + Total(es[1..])
  }

  lemma {:induction false} TotalAppend(a: Store, b: Store)
    ensures Total(a + b) == Total(a) + Total(b)
  {
    if a != [] {
      assert (a + b)[0] == a[0];
      assert (a + b)[1..] == a[1..] + b;
      TotalAppend(a[1..], b);
      assert Total(a + b) == a[0].amount + Total(a[1..] + b);
    } else {
      assert a + b == b;
    }
  }

  /** Amounts are non-negative in every stored record, so sums are too. */
  lemma {:induction false} TotalNonNegative(es: Store)
    requires forall e :: e in es ==> ValidExpense(e)
    ensures Total(es) >= 0
  {
    if es != [] {
      assert es[0] in es;
      assert forall e :: e in es[1..] ==> e in es;
      TotalNonNegative(es[1..]);
    }
  }

  // ---------------------------------------------------------------------
  // `sort({ date: -1 })`

  predicate NewestFirst(es: Store) {
    forall i, j :: 0 <= i < j < |es| ==> AtOrBefore(es[j].date, es[i].date)
  }

  /** A record may go in front of newest-first records no newer than it. */
  lemma PrependNewest(x: Expense, es: Store)
    requires NewestFirst(es) && forall y :: y in es ==> AtOrBefore(y.date, x.date)
    ensures NewestFirst([x] + es)
  {
    var r := [x] + es;
    forall i, j | 0 <= i < j < |r| ensures AtOrBefore(r[j].date, r[i].date) {
      assert r[j] == es[j - 1];
      if i > 0 {
        assert r[i] == es[i - 1];
      }
    }
  }

  function InsertByDate(e: Expense, es: Store): (r: Store)
    requires NewestFirst(es)
    ensures NewestFirst(r)
    ensures multiset(r) == multiset(es) + multiset{e}
    ensures forall x :: x in r ==> x == e || x in es
  {
    if es == [] || AtOrBefore(es[0].date, e.date) then
      forall y | y in es ensures AtOrBefore(y.date, e.date) {
        var j :| 0 <= j < |es| && es[j] == y;
        AtOrBeforeIsTotalOrder(es[j].date, es[0].date, e.date);
      }
      PrependNewest(e, es);
      [e] + es
    else
      var rest := InsertByDate(e, es[1..]);
      assert es == [es[0]] + es[1..];
      AtOrBeforeIsTotalOrder(es[0].date, e.date, e.date);
      assert forall y :: y in rest ==> AtOrBefore(y.date, es[0].date);
      PrependNewest(es[0], rest);
      [es[0]] + rest
  }

  /** The records of `es`, newest first. Ties keep no particular order in
      the store; here they keep store order. */
  function SortNewestFirst(es: Store): (r: Store)
    ensures NewestFirst(r)
    ensures multiset(r) == multiset(es)
  {
    if es == [] then []
    else
      assert es == [es[0]] + es[1..];
      InsertByDate(es[0], SortNewestFirst(es[1..]))
  }

  // ---------------------------------------------------------------------
  // `$group: { _id: { year: { $year: '$date' }, month: { $month: '$date' } } }`

  datatype MonthKey = MonthKey(year: int, month: int)

  /** The `$sort: { '_id.year': 1, '_id.month': 1 }` order, strict. */
  predicate KeyBefore(a: MonthKey, b: MonthKey) {
    a.year < b.year || (a.year == b.year && a.month < b.month)
  }

  function MonthOf(e: Expense): MonthKey {
    MonthKey(e.date.day.year, e.date.day.month)
  }

  datatype MonthTotal = MonthTotal(key: MonthKey, total: int)

  /** Keys strictly ascending, hence also distinct. */
  predicate Ascending(bs: seq<MonthTotal>) {
    forall i, j :: 0 <= i < j < |bs| ==> KeyBefore(bs[i].key, bs[j].key)
  }

  function KeysOf(bs: seq<MonthTotal>): set<MonthKey> {
    set b | b in bs :: b.key
  }

  /** Total recorded under `k` in a list of buckets (0 if there is none). */
  function TotalAt(bs: seq<MonthTotal>, k: MonthKey): int {
    if bs == [] then 0 else (if bs[0].key == k then bs[0].total else 0) + TotalAt(bs[1..], k)
  }

  /** Sum of the amounts of the records dated in month `k`. */
  function SumMonth(es: Store, k: MonthKey): int {
    if es == [] then 0 else (if MonthOf(es[0]) == k then es[0].amount else 0) + SumMonth(es[1..], k)
  }

  function MonthsOf(es: Store): set<MonthKey> {
    set e | e in es :: MonthOf(e)
  }

  lemma KeysOfCons(b: MonthTotal, bs: seq<MonthTotal>)
    ensures KeysOf([b] + bs) == {b.key} + KeysOf(bs)
  {
    assert forall x :: x in [b] + bs <==> x == b || x in bs;
  }

  /** A bucket can go in front of ascending buckets exactly when its key
      precedes all of theirs. */
  lemma AscendingCons(b: MonthTotal, bs: seq<MonthTotal>)
    ensures Ascending([b] + bs) <==> Ascending(bs) && forall x :: x in KeysOf(bs) ==> KeyBefore(b.key, x)
  {
    var w := [b] + bs;
    assert w[0] == b;
    assert forall j :: 0 < j < |w| ==> w[j] == bs[j - 1];
    if Ascending(w) {
      forall i, j | 0 <= i < j < |bs| ensures KeyBefore(bs[i].key, bs[j].key) {
        assert w[i + 1] == bs[i] && w[j + 1] == bs[j];
      }
      forall x | x in KeysOf(bs) ensures KeyBefore(b.key, x) {
        var y :| y in bs && y.key == x;
        var j :| 0 <= j < |bs| && bs[j] == y;
        assert w[j + 1] == y;
      }
    }
    if Ascending(bs) && forall x :: x in KeysOf(bs) ==> KeyBefore(b.key, x) {
      forall i, j | 0 <= i < j < |w| ensures KeyBefore(w[i].key, w[j].key) {
        assert w[j] == bs[j - 1];
        if i == 0 {
          assert bs[j - 1].key in KeysOf(bs);
        } else {
          assert w[i] == bs[i - 1];
        }
      }
    }
  }

  lemma {:induction false} TotalAtAbsent(bs: seq<MonthTotal>, k: MonthKey)
    requires k !in KeysOf(bs)
    ensures TotalAt(bs, k) == 0
  {
    if bs != [] {
      assert bs == [bs[0]] + bs[1..];
      KeysOfCons(bs[0], bs[1..]);
      TotalAtAbsent(bs[1..], k);
    }
  }

  lemma TotalAtCons(b: MonthTotal, bs: seq<MonthTotal>)
    ensures forall k :: TotalAt([b] + bs, k) == (if b.key == k then b.total else 0) + TotalAt(bs, k)
  {
    assert ([b] + bs)[1..] == bs;
  }

  /** Adds `amount` to the bucket for `k`, creating it in order if absent. */
  function AddToMonth(bs: seq<MonthTotal>, k: MonthKey, amount: int): seq<MonthTotal>
  {
    if bs == [] then [MonthTotal(k, amount)]
    else if bs[0].key == k then [MonthTotal(k, bs[0].total + amount)] + bs[1..]
    else if KeyBefore(k, bs[0].key) then [MonthTotal(k, amount)] + bs
    else [bs[0]] + AddToMonth(bs[1..], k, amount)
  }

  /** Adding to ascending buckets keeps them ascending. */
  lemma {:induction false} AddToMonthAscending(bs: seq<MonthTotal>, k: MonthKey, amount: int)
    requires Ascending(bs)
    ensures Ascending(AddToMonth(bs, k, amount))
  {
    if bs == [] {
    } else {
      assert bs == [bs[0]] + bs[1..];
      AscendingCons(bs[0], bs[1..]);
      if bs[0].key == k {
        AscendingCons(MonthTotal(k, bs[0].total + amount), bs[1..]);
      } else if KeyBefore(k, bs[0].key) {
        KeysOfCons(bs[0], bs[1..]);
        AscendingCons(MonthTotal(k, amount), bs);
      } else {
        var rest := AddToMonth(bs[1..], k, amount);
        AddToMonthAscending(bs[1..], k, amount);
        AddToMonthKeys(bs[1..], k, amount);
        AscendingCons(bs[0], rest);
      }
    }
  }

  /** Adding puts `k` among the keys and no other. */
  lemma {:induction false} AddToMonthKeys(bs: seq<MonthTotal>, k: MonthKey, amount: int)
    ensures KeysOf(AddToMonth(bs, k, amount)) == KeysOf(bs) + {k}
  {
    if bs == [] {
      KeysOfCons(MonthTotal(k, amount), []);
    } else {
      assert bs == [bs[0]] + bs[1..];
      KeysOfCons(bs[0], bs[1..]);
      if bs[0].key == k {
        KeysOfCons(MonthTotal(k, bs[0].total + amount), bs[1..]);
      } else if KeyBefore(k, bs[0].key) {
        KeysOfCons(MonthTotal(k, amount), bs);
      } else {
        AddToMonthKeys(bs[1..], k, amount);
        KeysOfCons(bs[0], AddToMonth(bs[1..], k, amount));
      }
    }
  }

  /** Adding changes the total under `k` by `amount` and no other total. */
  lemma {:induction false} AddToMonthTotals(bs: seq<MonthTotal>, k: MonthKey, amount: int)
    ensures forall k' :: TotalAt(AddToMonth(bs, k, amount), k') == TotalAt(bs, k') + (if k' == k then amount else 0)
  {
    if bs == [] {
      TotalAtCons(MonthTotal(k, amount), []);
    } else {
      assert bs == [bs[0]] + bs[1..];
      TotalAtCons(bs[0], bs[1..]);
      if bs[0].key == k {
        TotalAtCons(MonthTotal(k, bs[0].total + amount), bs[1..]);
      } else if KeyBefore(k, bs[0].key) {
        TotalAtCons(MonthTotal(k, amount), bs);
      } else {
        AddToMonthTotals(bs[1..], k, amount);
        TotalAtCons(bs[0], AddToMonth(bs[1..], k, amount));
      }
    }
  }

  /** The month buckets of `es`: one per month that has a record, in
      ascending order, each holding that month's sum. */
  function GroupByMonth(es: Store): (r: seq<MonthTotal>)
    ensures Ascending(r)
    ensures KeysOf(r) == MonthsOf(es)
    ensures forall k :: TotalAt(r, k) == SumMonth(es, k)
  {
    if es == [] then []
    else
      assert es == [es[0]] + es[1..];
      assert MonthsOf(es) == {MonthOf(es[0])} + MonthsOf(es[1..]);
      AddToMonthAscending(GroupByMonth(es[1..]), MonthOf(es[0]), es[0].amount);
      AddToMonthKeys(GroupByMonth(es[1..]), MonthOf(es[0]), es[0].amount);
      AddToMonthTotals(GroupByMonth(es[1..]), MonthOf(es[0]), es[0].amount);
      AddToMonth(GroupByMonth(es[1..]), MonthOf(es[0]), es[0].amount)
  }

  /** In ascending buckets, a bucket's total is the total recorded under its key. */
  lemma {:induction false} AscendingBucketTotal(bs: seq<MonthTotal>, i: nat)
    requires Ascending(bs) && i < |bs|
    ensures TotalAt(bs, bs[i].key) == bs[i].total
  {
    assert bs == [bs[0]] + bs[1..];
    AscendingCons(bs[0], bs[1..]);
    if i == 0 {
      TotalAtAbsent(bs[1..], bs[0].key);
    } else {
      AscendingBucketTotal(bs[1..], i - 1);
      assert bs[1..][i - 1] == bs[i];
      assert bs[i].key in KeysOf(bs[1..]);
    }
  }

  // ---------------------------------------------------------------------
  // `$group: { _id: '$category' }` then `$sort: { total: -1 }`

  datatype CategoryTotal = CategoryTotal(category: Category, total: int)

  predicate Occurs(es: Store, c: Category) {
    exists i :: 0 <= i < |es| && es[i].category == c
  }

  function SumCategory(es: Store, c: Category): int {
    if es == [] then 0 else (if es[0].category == c then es[0].amount else 0) + SumCategory(es[1..], c)
  }

  /** Number of buckets for category `c`. */
  function CountCategory(bs: seq<CategoryTotal>, c: Category): nat {
    if bs == [] then 0 else (if bs[0].category == c then 1 else 0) + CountCategory(bs[1..], c)
  }

  function SumTotals(bs: seq<CategoryTotal>): int {
    if bs == [] then 0 else bs[0].total + SumTotals(bs[1..])
  }

  predicate NonIncreasing(bs: seq<CategoryTotal>) {
    forall i, j :: 0 <= i < j < |bs| ==> bs[j].total <= bs[i].total
  }

  /** One bucket per listed category that occurs in `es`, in list order. */
  function CategoryBuckets(es: Store, cats: seq<Category>): (r: seq<CategoryTotal>)
    ensures forall b :: b in r ==> b.category in cats && Occurs(es, b.category)
                                   && b.total == SumCategory(es, b.category)
  {
    if cats == [] then []
    else
      (if Occurs(es, cats[0]) then [CategoryTotal(cats[0], SumCategory(es, cats[0]))] else [])
      + CategoryBuckets(es, cats[1..])
  }

  /** A bucket may go in front of buckets whose totals do not exceed its own. */
  lemma PrependLargest(x: CategoryTotal, bs: seq<CategoryTotal>)
    requires NonIncreasing(bs) && forall y :: y in bs ==> y.total <= x.total
    ensures NonIncreasing([x] + bs)
  {
    var r := [x] + bs;
    forall i, j | 0 <= i < j < |r| ensures r[j].total <= r[i].total {
      assert r[j] == bs[j - 1];
      if i > 0 {
        assert r[i] == bs[i - 1];
      }
    }
  }

  function InsertByTotal(b: CategoryTotal, bs: seq<CategoryTotal>): (r: seq<CategoryTotal>)
    requires NonIncreasing(bs)
    ensures NonIncreasing(r)
    ensures multiset(r) == multiset(bs) + multiset{b}
    ensures forall x :: x in r ==> x == b || x in bs
  {
    if bs == [] || bs[0].total <= b.total then
      PrependLargest(b, bs);
      [b] + bs
    else
      var rest := InsertByTotal(b, bs[1..]);
      assert bs == [bs[0]] + bs[1..];
      assert forall x :: x in rest ==> x.total <= bs[0].total;
      PrependLargest(bs[0], rest);
      [bs[0]] + rest
  }

  function SortByTotalDesc(bs: seq<CategoryTotal>): (r: seq<CategoryTotal>)
    ensures NonIncreasing(r)
    ensures multiset(r) == multiset(bs)
  {
    if bs == [] then []
    else
      assert bs == [bs[0]] + bs[1..];
      InsertByTotal(bs[0], SortByTotalDesc(bs[1..]))
  }

  /** Taking the first element off `a` and the same element at `k` off
      `b` keeps two permutations permutations of each other. */
  lemma PermutationRemove(a: seq<CategoryTotal>, b: seq<CategoryTotal>, k: nat)
    requires multiset(a) == multiset(b) && a != [] && k < |b| && b[k] == a[0]
    ensures multiset(a[1..]) == multiset(b[..k] + b[k + 1..])
  {
    var x := a[0];
    assert b == b[..k] + [x] + b[k + 1..];
    assert a == [x] + a[1..];
    assert multiset(b) == multiset(b[..k]) + multiset{x} + multiset(b[k + 1..]);
    assert multiset(a) == multiset{x} + multiset(a[1..]);
    var rest := b[..k] + b[k + 1..];
    assert multiset(rest) == multiset(b[..k]) + multiset(b[k + 1..]);
    forall y ensures multiset(a[1..])[y] == multiset(rest)[y] {
      assert multiset(a)[y] == multiset(b)[y];
    }
  }

  /** The sum of totals depends only on the multiset of buckets. */
  lemma {:induction false} PermutationKeepsSum(a: seq<CategoryTotal>, b: seq<CategoryTotal>)
    requires multiset(a) == multiset(b)
    ensures SumTotals(a) == SumTotals(b)
    decreases |a|
  {
    if a == [] {
      assert |b| == |multiset(b)| == 0;
    } else {
      assert a[0] in multiset(b);
      var k :| 0 <= k < |b| && b[k] == a[0];
      PermutationRemove(a, b, k);
      PermutationKeepsSum(a[1..], b[..k] + b[k + 1..]);
      RemoveOneSum(b, k);
    }
  }

  /** Bucket counts depend only on the multiset of buckets. */
  lemma {:induction false} PermutationKeepsCount(a: seq<CategoryTotal>, b: seq<CategoryTotal>, c: Category)
    requires multiset(a) == multiset(b)
    ensures CountCategory(a, c) == CountCategory(b, c)
    decreases |a|
  {
    if a == [] {
      assert |b| == |multiset(b)| == 0;
    } else {
      assert a[0] in multiset(b);
      var k :| 0 <= k < |b| && b[k] == a[0];
      PermutationRemove(a, b, k);
      PermutationKeepsCount(a[1..], b[..k] + b[k + 1..], c);
      RemoveOneCount(b, k, c);
    }
  }

  lemma {:induction false} RemoveOneSum(b: seq<CategoryTotal>, k: nat)
    requires k < |b|
    ensures SumTotals(b) == b[k].total + SumTotals(b[..k] + b[k + 1..])
  {
    if k > 0 {
      RemoveOneSum(b[1..], k - 1);
      assert b[1..][..k - 1] + b[1..][k..] == (b[..k] + b[k + 1..])[1..];
      assert (b[..k] + b[k + 1..])[0] == b[0];
    } else {
      assert b[..0] + b[1..] == b[1..];
    }
  }

  lemma {:induction false} RemoveOneCount(b: seq<CategoryTotal>, k: nat, c: Category)
    requires k < |b|
    ensures CountCategory(b, c) == (if b[k].category == c then 1 else 0) + CountCategory(b[..k] + b[k + 1..], c)
  {
    if k > 0 {
      RemoveOneCount(b[1..], k - 1, c);
      assert b[1..][..k - 1] + b[1..][k..] == (b[..k] + b[k + 1..])[1..];
      assert (b[..k] + b[k + 1..])[0] == b[0];
    } else {
      assert b[..0] + b[1..] == b[1..];
    }
  }

  lemma {:induction false} SumOverCategories(es: Store)
    ensures SumCategory(es, Food) + SumCategory(es, Travel) + SumCategory(es, Shopping)
            + SumCategory(es, Bills) + SumCategory(es, Other) == Total(es)
  {
    if es != [] {
      SumOverCategories(es[1..]);
    }
  }

  lemma {:induction false} AbsentCategorySumsToZero(es: Store, c: Category)
    requires !Occurs(es, c)
    ensures SumCategory(es, c) == 0
  {
    if es != [] {
      AbsentCategorySumsToZero(es[1..], c);
    }
  }

  lemma {:induction false} SumAppend(a: seq<CategoryTotal>, b: seq<CategoryTotal>)
    ensures SumTotals(a + b) == SumTotals(a) + SumTotals(b)
  {
    if a == [] {
      assert a + b == b;
    } else {
      assert (a + b)[0] == a[0];
      assert (a + b)[1..] == a[1..] + b;
      SumAppend(a[1..], b);
    }
  }

  lemma {:induction false} CountAppend(a: seq<CategoryTotal>, b: seq<CategoryTotal>, c: Category)
    ensures CountCategory(a + b, c) == CountCategory(a, c) + CountCategory(b, c)
  {
    if a == [] {
      assert a + b == b;
    } else {
      assert (a + b)[0] == a[0];
      assert (a + b)[1..] == a[1..] + b;
      CountAppend(a[1..], b, c);
    }
  }

  /** Sum of the per-category sums over the listed categories. */
  function SumByCategories(es: Store, cats: seq<Category>): int {
    if cats == [] then 0 else SumCategory(es, cats[0]) + SumByCategories(es, cats[1..])
  }

  lemma {:induction false} CategoryBucketsCount(es: Store, cats: seq<Category>, c: Category)
    ensures CountCategory(CategoryBuckets(es, cats), c) == if Occurs(es, c) then multiset(cats)[c] else 0
  {
    if cats != [] {
      var head := if Occurs(es, cats[0]) then [CategoryTotal(cats[0], SumCategory(es, cats[0]))] else [];
      assert CategoryBuckets(es, cats) == head + CategoryBuckets(es, cats[1..]);
      CategoryBucketsCount(es, cats[1..], c);
      CountAppend(head, CategoryBuckets(es, cats[1..]), c);
      assert cats == [cats[0]] + cats[1..];
      assert multiset(cats) == multiset{cats[0]} + multiset(cats[1..]);
      if head != [] {
        assert head[1..] == [];
      }
    }
  }

  lemma {:induction false} CategoryBucketsSum(es: Store, cats: seq<Category>)
    ensures SumTotals(CategoryBuckets(es, cats)) == SumByCategories(es, cats)
  {
    if cats != [] {
      var head := if Occurs(es, cats[0]) then [CategoryTotal(cats[0], SumCategory(es, cats[0]))] else [];
      assert CategoryBuckets(es, cats) == head + CategoryBuckets(es, cats[1..]);
      CategoryBucketsSum(es, cats[1..]);
      SumAppend(head, CategoryBuckets(es, cats[1..]));
      if !Occurs(es, cats[0]) {
        AbsentCategorySumsToZero(es, cats[0]);
      } else {
        assert head[1..] == [];
      }
    }
  }

  lemma SumByAllCategories(es: Store)
    ensures SumByCategories(es, Categories) == Total(es)
  {
    var cs := Categories;
    assert SumByCategories(es, cs[5..]) == 0;
    assert SumByCategories(es, cs[4..]) == SumCategory(es, Other) + SumByCategories(es, cs[5..]);
    assert SumByCategories(es, cs[3..]) == SumCategory(es, Bills) + SumByCategories(es, cs[4..]);
    assert SumByCategories(es, cs[2..]) == SumCategory(es, Shopping) + SumByCategories(es, cs[3..]);
    assert SumByCategories(es, cs[1..]) == SumCategory(es, Travel) + SumByCategories(es, cs[2..]);
    assert SumByCategories(es, cs) == SumCategory(es, Food) + SumByCategories(es, cs[1..]);
    SumOverCategories(es);
  }

  /** `categoryData`: the category buckets sorted by total, largest first. */
  function GroupByCategory(es: Store): (r: seq<CategoryTotal>)
    ensures NonIncreasing(r)
  {
    SortByTotalDesc(CategoryBuckets(es, Categories))
  }

  /** Exactly one bucket per occurring category, none for the others, each
      holding that category's sum; the totals add up to the store's total. */
  lemma CategoryBreakdown(es: Store)
    ensures forall c :: CountCategory(GroupByCategory(es), c) == if Occurs(es, c) then 1 else 0
    ensures forall b :: b in GroupByCategory(es) ==> b.total == SumCategory(es, b.category)
    ensures SumTotals(GroupByCategory(es)) == Total(es)
  {
    var buckets := CategoryBuckets(es, Categories);
    var r := GroupByCategory(es);
    PermutationKeepsSum(r, buckets);
    forall b | b in r ensures b.total == SumCategory(es, b.category) {
      assert b in multiset(buckets);
    }
    forall c ensures CountCategory(r, c) == if Occurs(es, c) then 1 else 0 {
      PermutationKeepsCount(r, buckets, c);
      CategoryBucketsCount(es, Categories, c);
      CategoriesListsEachOnce(c);
    }
    CategoryBucketsSum(es, Categories);
    SumByAllCategories(es);
  }
}
