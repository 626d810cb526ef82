/**
 * The dashboard: the income, expense and balance cards, the five most
 * recent transactions, the monthly income/expense buckets behind the trend
 * chart, and the per-category expense totals behind the pie chart.
 *
 * The component sorts its transaction list newest first, in place, before
 * building the monthly buckets and the category totals, so both folds run
 * over `ByDateDesc(s)`.
 */
module Dashboard {
  import opened Wrappers
  import opened Numbers
  import opened Sorting
  import opened Dicts
  import opened Ledger

  // ---------------------------------------------------------------------------
  // Summary cards
  // ---------------------------------------------------------------------------

  /** The income card: the raw amounts of the income transactions added up. */
  function TotalIncome(s: seq<Txn>): Num {
    RawTotalOf(s, Income)
  }

  /** The expenses card. */
  function TotalExpenses(s: seq<Txn>): Num {
    RawTotalOf(s, Expense)
  }

  /** The balance card: income minus expenses. */
  function Balance(s: seq<Txn>): Num {
    Minus(TotalIncome(s), TotalExpenses(s))
  }

  /**
   * The balance is a number exactly when every income and every expense has
   * an amount, and it is then the net of incomes over expenses; one missing
   * amount turns the card into `NaN`.
   */
  lemma BalanceSpec(s: seq<Txn>)
    ensures Balance(s).Num? <==> AmountsDefined(s, Income) && AmountsDefined(s, Expense)
    ensures Balance(s).Num? ==> Balance(s).v == NetBalance(s) == SignedTotal(s)
    ensures TotalIncome(s).Num? ==> TotalIncome(s).v == TotalOf(s, Income)
    ensures TotalExpenses(s).Num? ==> TotalExpenses(s).v == TotalOf(s, Expense)
  {
    RawTotalOfDefined(s, Income);
    RawTotalOfDefined(s, Expense);
    NetBalanceIsSignedTotal(s);
  }

  /** The recent-transactions list: the five newest, newest first. */
  function Recent(s: seq<Txn>): seq<Txn> {
    MostRecent(s, 5)
  }

  /**
   * At most five transactions, newest first, all from `s`, and none left out
   * is newer than one shown.
   */
  lemma RecentSpec(s: seq<Txn>)
    ensures |Recent(s)| == if |s| < 5 then |s| else 5
    ensures forall i, j :: 0 <= i < j < |Recent(s)| ==> Recent(s)[i].date.day >= Recent(s)[j].date.day
    ensures multiset(Recent(s)) <= multiset(s)
    ensures forall i, t :: 0 <= i < |Recent(s)| && t in multiset(s) - multiset(Recent(s)) ==>
              Recent(s)[i].date.day >= t.date.day
  {
    MostRecentSpec(s, 5);
  }

  // ---------------------------------------------------------------------------
  // Monthly buckets
  // ---------------------------------------------------------------------------

  /** One bucket of `monthlyData`. */
  datatype MonthTotals = MonthTotals(month: string, income: Num, expense: Num)

  /** The bucket key: the short month name alone, so the same month of two years shares a bucket. */
  function MonthOf(t: Txn): string {
    t.date.month
  }

  /**
   * One step of `monthlyData`: a month seen for the first time starts at
   * zero; an income adds to `income`, every other type to `expense`.
   */
  function AddToMonth(prev: Option<MonthTotals>, t: Txn): MonthTotals {
    var b := if prev.Some? then prev.value else MonthTotals(MonthOf(t), Num(0), Num(0));
    if t.kind == Income then MonthTotals(b.month, Plus(b.income, Raw(t)), b.expense)
    else MonthTotals(b.month, b.income, Plus(b.expense, Raw(t)))
  }

  function MonthlyData(s: seq<Txn>): Dict<MonthTotals> {
    Fold(ByDateDesc(s), MonthOf, AddToMonth)
  }

  /** The amount `t` adds to the income of month `mo`. */
  function IncomeAmount(mo: string, t: Txn): Num {
    if MonthOf(t) == mo && t.kind == Income then Raw(t) else Num(0)
  }

  /** The amount `t` adds to the expense of month `mo`. */
  function ExpenseAmount(mo: string, t: Txn): Num {
    if MonthOf(t) == mo && t.kind != Income then Raw(t) else Num(0)
  }

  function IncomeIn(mo: string): Txn -> Num {
    t => IncomeAmount(mo, t)
  }

  function ExpenseIn(mo: string): Txn -> Num {
    t => ExpenseAmount(mo, t)
  }

  /** The bucket of month `mo`: its name, its incomes summed, everything else summed. */
  function BucketOf(s: seq<Txn>, mo: string): MonthTotals {
    MonthTotals(mo, SumOf(s, IncomeIn(mo)), SumOf(s, ExpenseIn(mo)))
  }

  /** `t in s` and `t in ByDateDesc(s)` agree. */
  lemma SortedMembers(s: seq<Txn>)
    ensures forall t :: t in ByDateDesc(s) <==> t in s
  {
    var sorted := ByDateDesc(s);
    forall t ensures t in sorted <==> t in s {
      assert t in sorted <==> t in multiset(sorted);
      assert t in s <==> t in multiset(s);
    }
  }

  /**
   * There is one bucket per month that has a transaction, and no other; each
   * month has one bucket.
   */
  lemma MonthlyKeys(s: seq<Txn>)
    ensures DistinctKeys(MonthlyData(s))
    ensures forall mo :: mo in Keys(MonthlyData(s)) <==> exists t :: t in s && t.date.month == mo
  {
    var sorted := ByDateDesc(s);
    FoldKeys(sorted, MonthOf, AddToMonth);
    SortedMembers(s);
    forall mo ensures HasKey(sorted, MonthOf, mo) <==> exists t :: t in s && t.date.month == mo {
      HasKeyMembers(sorted, MonthOf, mo);
    }
  }

  /**
   * Every bucket holds its own month name, the raw amounts of that month's
   * incomes added up, and the raw amounts of all its other transactions
   * added up, whatever order the transactions come in.
   */
  lemma MonthlyTotals(s: seq<Txn>, mo: string)
    requires mo in Keys(MonthlyData(s))
    ensures Lookup(MonthlyData(s), mo) == Some(BucketOf(s, mo))
  {
    var sorted := ByDateDesc(s);
    FoldKeys(sorted, MonthOf, AddToMonth);
    MonthBucket(sorted, mo);
    SortKeepsSum(s, DateKey, IncomeIn(mo));
    SortKeepsSum(s, DateKey, ExpenseIn(mo));
  }

  /** The bucket at position `i` carries the month it is filed under. */
  lemma MonthFieldIsKey(s: seq<Txn>, i: nat)
    requires i < |MonthlyData(s)|
    ensures MonthlyData(s)[i].1 == BucketOf(s, MonthlyData(s)[i].0)
  {
    var m := MonthlyData(s);
    FoldKeys(ByDateDesc(s), MonthOf, AddToMonth);
    assert Keys(m)[i] == m[i].0;
    LookupEntry(m, i);
    MonthlyTotals(s, m[i].0);
  }

  lemma {:induction false} MonthBucket(x: seq<Txn>, mo: string)
    requires HasKey(x, MonthOf, mo)
    ensures Lookup(Fold(x, MonthOf, AddToMonth), mo) == Some(BucketOf(x, mo))
  {
    var n := |x| - 1;
    var x' := x[..n];
    var t := x[n];
    var m := Fold(x', MonthOf, AddToMonth);
    var k := MonthOf(t);
    var v := AddToMonth(Lookup(m, k), t);
    FoldLast(x, MonthOf, AddToMonth);
    assert Fold(x, MonthOf, AddToMonth) == Put(m, k, v);
    SumOfLast(x, IncomeIn(mo));
    SumOfLast(x, ExpenseIn(mo));
    var b := BucketOf(x', mo);
    assert BucketOf(x, mo) == MonthTotals(mo, Plus(b.income, IncomeAmount(mo, t)), Plus(b.expense, ExpenseAmount(mo, t)));
    if k == mo {
      if HasKey(x', MonthOf, mo) {
        MonthBucket(x', mo);
      } else {
        FoldKeys(x', MonthOf, AddToMonth);
        NoBucket(x', mo);
      }
      AddToBucket(Lookup(m, mo), b, t);
      assert Lookup(Put(m, k, v), mo) == Some(v);
    } else {
      HasKeyPrefix(x, MonthOf, mo);
      MonthBucket(x', mo);
      PutOther(m, k, v, mo);
      assert IncomeAmount(mo, t) == Num(0) && ExpenseAmount(mo, t) == Num(0);
      PlusZero(b.income);
      PlusZero(b.expense);
    }
  }

  /** A month without transactions sums to zero on both sides. */
  lemma NoBucket(x: seq<Txn>, mo: string)
    requires !HasKey(x, MonthOf, mo)
    ensures BucketOf(x, mo) == MonthTotals(mo, Num(0), Num(0))
  {
    SumOfZeros(x, IncomeIn(mo));
    SumOfZeros(x, ExpenseIn(mo));
  }

  lemma AddToBucket(prev: Option<MonthTotals>, b: MonthTotals, t: Txn)
    requires prev == Some(b) || (prev == None && b == MonthTotals(MonthOf(t), Num(0), Num(0)))
    requires !b.income.Undefined? && !b.expense.Undefined?
    ensures AddToMonth(prev, t)
            == MonthTotals(b.month, Plus(b.income, IncomeAmount(MonthOf(t), t)),
                           Plus(b.expense, ExpenseAmount(MonthOf(t), t)))
  {
    var mo := MonthOf(t);
    assert (if prev.Some? then prev.value else MonthTotals(mo, Num(0), Num(0))) == b;
    if t.kind == Income {
      assert IncomeAmount(mo, t) == Raw(t);
      assert ExpenseAmount(mo, t) == Num(0);
      PlusZero(b.expense);
    } else {
      assert IncomeAmount(mo, t) == Num(0);
      assert ExpenseAmount(mo, t) == Raw(t);
      PlusZero(b.income);
    }
  }

  lemma PlusZero(a: Num)
    requires !a.Undefined?
    ensures Plus(a, Num(0)) == a
  {
  }

  // ---------------------------------------------------------------------------
  // The trend chart
  // ---------------------------------------------------------------------------

  /** Every bucket carries the month it is filed under. */
  ghost predicate Labelled(m: Dict<MonthTotals>) {
    forall j :: 0 <= j < |m| ==> m[j].1.month == m[j].0
  }

  /** The day of the newest transaction of month `mo`, if it has any. */
  function LatestDay(s: seq<Txn>, mo: string): Option<int> {
    if s == [] then None
    else
      var rest := LatestDay(s[1..], mo);
      if s[0].date.month != mo then rest
      else if rest.Some? && rest.value >= s[0].date.day then rest
      else Some(s[0].date.day)
  }

  /** No transaction of a month is newer than its latest day. */
  lemma {:induction false} LatestBound(s: seq<Txn>, mo: string, u: Txn)
    requires u in s && u.date.month == mo
    ensures LatestDay(s, mo).Some? && u.date.day <= LatestDay(s, mo).value
  {
    if s[0] != u {
      assert u in s[1..];
      LatestBound(s[1..], mo, u);
    }
  }

  /** The latest day of a month is the day of one of its transactions. */
  lemma {:induction false} LatestWitness(s: seq<Txn>, mo: string) returns (t: Txn)
    requires LatestDay(s, mo).Some?
    ensures t in s && t.date.month == mo && t.date.day == LatestDay(s, mo).value
  {
    var rest := LatestDay(s[1..], mo);
    if s[0].date.month == mo && !(rest.Some? && rest.value >= s[0].date.day) {
      t := s[0];
    } else {
      t := LatestWitness(s[1..], mo);
      assert t in s;
    }
  }

  /** Buckets in order of latest activity: no later bucket has a newer latest day. */
  ghost predicate NewerFirst(s: seq<Txn>, m: Dict<MonthTotals>) {
    forall i, j :: 0 <= i < j < |m| && LatestDay(s, m[j].0).Some? ==>
      LatestDay(s, m[i].0).Some? && LatestDay(s, m[j].0).value <= LatestDay(s, m[i].0).value
  }

  lemma MonthlyLabelled(s: seq<Txn>)
    ensures Labelled(MonthlyData(s))
  {
    var m := MonthlyData(s);
    forall j | 0 <= j < |m| ensures m[j].1.month == m[j].0 {
      MonthFieldIsKey(s, j);
    }
  }

  /** The buckets come in order of latest activity. */
  lemma MonthOrder(s: seq<Txn>)
    ensures NewerFirst(s, MonthlyData(s))
  {
    var m := MonthlyData(s);
    forall i, j | 0 <= i < j < |m| && LatestDay(s, m[j].0).Some?
      ensures LatestDay(s, m[i].0).Some? && LatestDay(s, m[j].0).value <= LatestDay(s, m[i].0).value
    {
      var u := LatestWitness(s, m[j].0);
      var t := NewerInBucket(s, i, j, u);
      LatestBound(s, m[i].0, t);
    }
  }

  /** A transaction of bucket `i` at least as new as `u`, which is in the later bucket `j`. */
  lemma NewerInBucket(s: seq<Txn>, i: nat, j: nat, u: Txn) returns (t: Txn)
    requires i < j < |MonthlyData(s)| && u in s && u.date.month == MonthlyData(s)[j].0
    ensures t in s && t.date.month == MonthlyData(s)[i].0 && t.date.day >= u.date.day
  {
    var sorted := ByDateDesc(s);
    var m := MonthlyData(s);
    SortedMembers(s);
    var q :| 0 <= q < |sorted| && sorted[q] == u;
    FoldKeyOrder(sorted, MonthOf, AddToMonth);
    var p :| 0 <= p < q && MonthOf(sorted[p]) == m[i].0;
    assert Ge(DateKey(sorted[p]), DateKey(sorted[q]));
    assert sorted[p] in sorted;
    t := sorted[p];
  }

  /** Every bucket has a transaction of its month. */
  lemma BucketHasTxn(s: seq<Txn>, j: nat) returns (t: Txn)
    requires j < |MonthlyData(s)|
    ensures t in s && t.date.month == MonthlyData(s)[j].0
  {
    var m := MonthlyData(s);
    var sorted := ByDateDesc(s);
    FoldKeys(sorted, MonthOf, AddToMonth);
    assert Keys(m)[j] == m[j].0;
    assert HasKey(sorted, MonthOf, m[j].0);
    var i :| 0 <= i < |sorted| && MonthOf(sorted[i]) == m[j].0;
    SortedMembers(s);
    assert sorted[i] in sorted;
    t := sorted[i];
  }

  /**
   * `Object.values(monthlyData).slice(-6)` as written: the last six buckets.
   * The buckets were created newest first, so these are the six months
   * with the oldest activity, newest first.
   */
  function ChartDataAsWritten(s: seq<Txn>): seq<MonthTotals> {
    TakeLast(Values(MonthlyData(s)), 6)
  }

  /**
   * Once there are more than six months, the chart as written leaves out the
   * month of the newest transaction.
   */
  lemma ChartDropsNewestMonth(s: seq<Txn>)
    requires |MonthlyData(s)| > 6
    ensures s != []
    ensures forall i :: 0 <= i < |ChartDataAsWritten(s)| ==>
              ChartDataAsWritten(s)[i].month != ByDateDesc(s)[0].date.month
  {
    var sorted := ByDateDesc(s);
    assert sorted != [];
    FoldFirstKey(sorted, MonthOf, AddToMonth);
    FoldKeys(sorted, MonthOf, AddToMonth);
    MonthlyLabelled(s);
    LastSixMissFirst(MonthlyData(s));
  }

  /** In labelled buckets with distinct months, the last six never include the first bucket's month. */
  lemma LastSixMissFirst(m: Dict<MonthTotals>)
    requires |m| > 6 && Labelled(m) && DistinctKeys(m)
    ensures forall i :: 0 <= i < |TakeLast(Values(m), 6)| ==> TakeLast(Values(m), 6)[i].month != m[0].0
  {
    var c := TakeLast(Values(m), 6);
    forall i | 0 <= i < |c| ensures c[i].month != m[0].0 {
      var j := |m| - 6 + i;
      assert c[i] == m[j].1;
    }
  }

  /**
   * The chart corrected: the six buckets with the newest activity, turned
   * round so that the months run oldest to newest.
   */
  function ChartData(s: seq<Txn>): seq<MonthTotals> {
    Chart(MonthlyData(s))
  }

  /** The first six buckets, last first. */
  function Chart(m: Dict<MonthTotals>): seq<MonthTotals> {
    Reverse(Take(Values(m), 6))
  }

  /** Entry `a` of the chart is bucket `|Chart(m)| - 1 - a`. */
  lemma ChartAt(m: Dict<MonthTotals>, a: nat)
    requires a < |Chart(m)|
    ensures |Chart(m)| <= |m|
    ensures Chart(m)[a] == m[|Chart(m)| - 1 - a].1
  {
    ReverseTakeIndex(Values(m), 6, a);
  }

  /**
   * The corrected chart shows at most six months, each with its totals and
   * each a month that has transactions.
   */
  lemma ChartDataSpec(s: seq<Txn>)
    ensures |ChartData(s)| == if |MonthlyData(s)| < 6 then |MonthlyData(s)| else 6
    ensures forall a :: 0 <= a < |ChartData(s)| ==>
              ChartData(s)[a] == BucketOf(s, ChartData(s)[a].month)
              && exists t :: t in s && t.date.month == ChartData(s)[a].month
  {
    var m := MonthlyData(s);
    assert ChartData(s) == Chart(m);
    MonthlyFiled(s);
    ChartFiled(s, m);
  }

  /** Every bucket holds the totals of its month, and its month has transactions. */
  ghost predicate Filed(s: seq<Txn>, m: Dict<MonthTotals>) {
    forall j :: 0 <= j < |m| ==> m[j].1 == BucketOf(s, m[j].0) && LatestDay(s, m[j].0).Some?
  }

  lemma MonthlyFiled(s: seq<Txn>)
    ensures Filed(s, MonthlyData(s))
  {
    var m := MonthlyData(s);
    forall j | 0 <= j < |m| ensures m[j].1 == BucketOf(s, m[j].0) && LatestDay(s, m[j].0).Some? {
      MonthFieldIsKey(s, j);
      var t := BucketHasTxn(s, j);
      LatestBound(s, m[j].0, t);
    }
  }

  lemma ChartFiled(s: seq<Txn>, m: Dict<MonthTotals>)
    requires Filed(s, m)
    ensures |Chart(m)| == if |m| < 6 then |m| else 6
    ensures forall a :: 0 <= a < |Chart(m)| ==>
              Chart(m)[a] == BucketOf(s, Chart(m)[a].month)
              && exists t :: t in s && t.date.month == Chart(m)[a].month
  {
    var r := Chart(m);
    forall a | 0 <= a < |r|
      ensures r[a] == BucketOf(s, r[a].month)
      ensures exists t :: t in s && t.date.month == r[a].month
    {
      ChartAt(m, a);
      var t := LatestWitness(s, m[|r| - 1 - a].0);
    }
  }

  /** The corrected chart ends with the month of the newest transaction. */
  lemma ChartNewest(s: seq<Txn>)
    requires s != []
    ensures |ChartData(s)| > 0 && ChartData(s)[|ChartData(s)| - 1].month == ByDateDesc(s)[0].date.month
  {
    var sorted := ByDateDesc(s);
    assert |sorted| == |s|;
    FoldFirstKey(sorted, MonthOf, AddToMonth);
    MonthlyLabelled(s);
    ChartAt(MonthlyData(s), |ChartData(s)| - 1);
  }

  /** The months of the corrected chart run from older to newer activity. */
  lemma ChartChronological(s: seq<Txn>)
    ensures forall a, b, u :: 0 <= a < b < |ChartData(s)| && u in s && u.date.month == ChartData(s)[a].month
              ==> exists t :: t in s && t.date.month == ChartData(s)[b].month && t.date.day >= u.date.day
  {
    var m := MonthlyData(s);
    MonthlyLabelled(s);
    MonthOrder(s);
    ChartOrdered(s, m);
  }

  lemma ChartOrdered(s: seq<Txn>, m: Dict<MonthTotals>)
    requires Labelled(m) && NewerFirst(s, m)
    ensures forall a, b, u :: 0 <= a < b < |Chart(m)| && u in s && u.date.month == Chart(m)[a].month
              ==> exists t :: t in s && t.date.month == Chart(m)[b].month && t.date.day >= u.date.day
  {
    var r := Chart(m);
    forall a, b, u | 0 <= a < b < |r| && u in s && u.date.month == r[a].month
      ensures exists t :: t in s && t.date.month == r[b].month && t.date.day >= u.date.day
    {
      var t := NewerEntry(s, m, a, b, u);
    }
  }

  /** A transaction of chart entry `b` at least as new as `u`, which is in the earlier entry `a`. */
  lemma NewerEntry(s: seq<Txn>, m: Dict<MonthTotals>, a: nat, b: nat, u: Txn) returns (t: Txn)
    requires Labelled(m) && NewerFirst(s, m)
    requires a < b < |Chart(m)| && u in s && u.date.month == Chart(m)[a].month
    ensures t in s && t.date.month == Chart(m)[b].month && t.date.day >= u.date.day
  {
    var r := Chart(m);
    var n := |r|;
    ChartAt(m, a);
    ChartAt(m, b);
    var i, j := n - 1 - b, n - 1 - a;
    assert r[b].month == m[i].0;
    assert i < j && u.date.month == m[j].0;
    LatestBound(s, m[j].0, u);
    t := LatestWitness(s, m[i].0);
  }

  /**
   * No month left out of the corrected chart has a transaction newer than
   * every transaction of a month shown.
   */
  lemma ChartKeepsNewest(s: seq<Txn>)
    ensures forall a, u :: 0 <= a < |ChartData(s)| && u in s && !InShown(ChartData(s), u)
              ==> exists t :: t in s && t.date.month == ChartData(s)[a].month && t.date.day >= u.date.day
  {
    var m := MonthlyData(s);
    MonthlyLabelled(s);
    MonthOrder(s);
    MonthlyKeys(s);
    ChartCovers(s, m);
  }

  lemma ChartCovers(s: seq<Txn>, m: Dict<MonthTotals>)
    requires Labelled(m) && NewerFirst(s, m)
    requires forall u :: u in s ==> u.date.month in Keys(m)
    ensures forall a, u :: 0 <= a < |Chart(m)| && u in s && !InShown(Chart(m), u)
              ==> exists t :: t in s && t.date.month == Chart(m)[a].month && t.date.day >= u.date.day
  {
    var r := Chart(m);
    forall a, u | 0 <= a < |r| && u in s && !InShown(r, u)
      ensures exists t :: t in s && t.date.month == r[a].month && t.date.day >= u.date.day
    {
      var t := CoveredBy(s, m, a, u);
    }
  }

  /** A transaction of chart entry `a` at least as new as `u`, whose month the chart leaves out. */
  lemma CoveredBy(s: seq<Txn>, m: Dict<MonthTotals>, a: nat, u: Txn) returns (t: Txn)
    requires Labelled(m) && NewerFirst(s, m)
    requires u in s && u.date.month in Keys(m)
    requires a < |Chart(m)| && !InShown(Chart(m), u)
    ensures t in s && t.date.month == Chart(m)[a].month && t.date.day >= u.date.day
  {
    var r := Chart(m);
    var n := |r|;
    ChartAt(m, a);
    var i := n - 1 - a;
    assert r[a].month == m[i].0;
    var j :| 0 <= j < |m| && Keys(m)[j] == u.date.month;
    if j < n {
      ChartAt(m, n - 1 - j);
      assert false;
    }
    assert i < j && u.date.month == m[j].0;
    LatestBound(s, m[j].0, u);
    t := LatestWitness(s, m[i].0);
  }

  /** The month of `u` is one the chart shows. */
  ghost predicate InShown(chart: seq<MonthTotals>, u: Txn) {
    exists a :: 0 <= a < |chart| && chart[a].month == u.date.month
  }

  // ---------------------------------------------------------------------------
  // The category pie
  // ---------------------------------------------------------------------------

  /** The pie key: `transaction.category` as an object key, so a missing category becomes `"undefined"`. */
  function CategoryKey(t: Txn): string {
    if t.category.Some? then t.category.value else "undefined"
  }

  /**
   * `categoryData`: the expenses tallied per category with
   * `if (!acc[c]) acc[c] = 0; acc[c] += amount`, which is `Accumulate` over
   * `0 + amount` (see `CategoryDataStep`): a missing amount stores `NaN`.
   */
  function CategoryData(s: seq<Txn>): Dict<Num> {
    Tally(OfKind(ByDateDesc(s), Expense), CategoryKey, ZeroPlus)
  }

  /** One step of the source's accumulation: a falsy entry restarts from 0, then the raw amount is added. */
  function PieStep(prev: Option<Num>, t: Txn): Num {
    OrZeroPlus(prev, Raw(t))
  }

  /** The tally is the component's own fold, step for step. */
  lemma CategoryDataStep(s: seq<Txn>)
    ensures CategoryData(s) == Fold(OfKind(ByDateDesc(s), Expense), CategoryKey, PieStep)
  {
    forall p, t ensures AccumulateBy(ZeroPlus)(p, t) == PieStep(p, t) {
      assert AccumulateBy(ZeroPlus)(p, t) == Accumulate(p, ZeroPlus(t));
      OrZeroPlusIsAccumulate(p, Raw(t));
    }
    FoldSameStep(OfKind(ByDateDesc(s), Expense), CategoryKey, AccumulateBy(ZeroPlus), PieStep);
  }

  /** One slice of the pie. */
  datatype Slice = Slice(name: string, value: Num)

  function PieData(s: seq<Txn>): (r: seq<Slice>)
    ensures |r| == |CategoryData(s)|
  {
    var d := CategoryData(s);
    seq(|d|, i requires 0 <= i < |d| => Slice(d[i].0, d[i].1))
  }

  function Names(p: seq<Slice>): (r: seq<string>)
    ensures |r| == |p| && forall i :: 0 <= i < |p| ==> r[i] == p[i].name
  {
    seq(|p|, i requires 0 <= i < |p| => p[i].name)
  }

  /**
   * The pie has one slice per category that has an expense (a missing
   * category showing as `"undefined"`), no category twice, and each slice
   * carries that category's entry.
   */
  lemma PieDataSpec(s: seq<Txn>)
    ensures forall c :: c in Names(PieData(s)) <==>
              exists t :: t in s && t.kind == Expense && CategoryKey(t) == c
    ensures forall i, j :: 0 <= i < j < |PieData(s)| ==> PieData(s)[i].name != PieData(s)[j].name
    ensures forall i :: 0 <= i < |PieData(s)| ==>
              Lookup(CategoryData(s), PieData(s)[i].name) == Some(PieData(s)[i].value)
  {
    var d := CategoryData(s);
    var p := PieData(s);
    CategoryDataKeys(s);
    assert Names(p) == Keys(d);
    forall i | 0 <= i < |p| ensures Lookup(d, p[i].name) == Some(p[i].value) {
      LookupEntry(d, i);
    }
  }

  /** The category entries are distinct and are exactly the categories (or `"undefined"`) of the expenses. */
  lemma CategoryDataKeys(s: seq<Txn>)
    ensures DistinctKeys(CategoryData(s))
    ensures forall c :: c in Keys(CategoryData(s)) <==>
              exists t :: t in s && t.kind == Expense && CategoryKey(t) == c
  {
    FilteredKeys(ByDateDesc(s), Expense, CategoryKey, AccumulateBy(ZeroPlus));
    SortedMembers(s);
  }

  /**
   * When every expense has an amount, the pie's values are numbers and add
   * up to the expenses card.
   */
  lemma CategoryDataConserves(s: seq<Txn>)
    requires AmountsDefined(s, Expense)
    ensures forall i :: 0 <= i < |CategoryData(s)| ==> CategoryData(s)[i].1.Num?
    ensures SumOf(CategoryData(s), EntryNum) == TotalExpenses(s)
  {
    var sorted := ByDateDesc(s);
    SortedMembers(s);
    assert AmountsDefined(sorted, Expense) by {
      forall i | 0 <= i < |sorted| && sorted[i].kind == Expense ensures sorted[i].amount.Some? {
        assert sorted[i] in s;
      }
    }
    KindAmountsDefined(sorted, Expense);
    var f := OfKind(sorted, Expense);
    assert AllDefined(f, ZeroPlus) by {
      assert forall i :: 0 <= i < |f| ==> Raw(f[i]).Num?;
    }
    TallyConserves(f, CategoryKey, ZeroPlus);
    OfKindPermutation(sorted, s, Expense);
    SumOfPermutation(f, OfKind(s, Expense), ZeroPlus);
    SumOfSameNumbers(OfKind(s, Expense), ZeroPlus, Raw);
  }
}
