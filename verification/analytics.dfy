/**
 * The Analytics page: the expense amounts per category behind its chart,
 * the report totals, the expense and income breakdown tables ordered by
 * amount with their percentage column, the table of the 20 most recent
 * transactions, the CSV category rows, and the request for a spending
 * analysis.
 */
module Analytics {
  import opened Wrappers
  import opened Numbers
  import opened Sorting
  import opened Dicts
  import opened Strings
  import opened Ledger
  import opened Retry

  /** `t.category || 'Other'`. */
  function CategoryLabel(t: Txn): string {
    OrDefault(t.category, "Other")
  }

  /**
   * `categoryData`: over the expense transactions only, each category
   * label's amounts added up with `categories[c] ? categories[c] + a : a`.
   */
  function CategoryData(s: seq<Txn>): Dict<Num> {
    Tally(OfKind(s, Expense), CategoryLabel, Raw)
  }

  /** One step of `incomeCategoryData`: `(acc[c] || 0) + (t.amount || 0)`. */
  function IncomeStep(prev: Option<Num>, t: Txn): Num {
    OrZeroPlus(prev, AmountOr0(t))
  }

  /** `incomeCategoryData`: over the income transactions, the amounts of each category label added up. */
  function IncomeCategoryData(s: seq<Txn>): Dict<Num> {
    Fold(OfKind(s, Income), CategoryLabel, IncomeStep)
  }

  /**
   * The keys of a per-category map built over the transactions of type `k`
   * are distinct and are exactly the labels of those transactions; in
   * particular a missing or empty category appears as `'Other'`, and no key
   * is empty.
   */
  lemma CategoryKeys<V>(s: seq<Txn>, k: Kind, step: (Option<V>, Txn) -> V)
    ensures DistinctKeys(Fold(OfKind(s, k), CategoryLabel, step))
    ensures forall c :: c in Keys(Fold(OfKind(s, k), CategoryLabel, step)) <==>
              exists t :: t in s && t.kind == k && CategoryLabel(t) == c
    ensures forall t :: t in s && t.kind == k && (t.category.None? || t.category.value == []) ==>
              "Other" in Keys(Fold(OfKind(s, k), CategoryLabel, step))
    ensures [] !in Keys(Fold(OfKind(s, k), CategoryLabel, step))
  {
    FilteredKeys(s, k, CategoryLabel, step);
  }

  /** The keys of `categoryData`: distinct, and exactly the labels of the expense transactions. */
  lemma CategoryDataKeys(s: seq<Txn>)
    ensures DistinctKeys(CategoryData(s))
    ensures forall c :: c in Keys(CategoryData(s)) <==>
              exists t :: t in s && t.kind == Expense && CategoryLabel(t) == c
  {
    FilteredKeys(s, Expense, CategoryLabel, AccumulateBy(Raw));
  }

  /** A transaction that is not an expense changes nothing in `categoryData`. */
  lemma IncomeNeverCounts(s: seq<Txn>, t: Txn)
    requires t.kind != Expense
    ensures CategoryData(s + [t]) == CategoryData(s)
  {
    OfKindConcat(s, [t], Expense);
    assert OfKind([t], Expense) == [];
    assert OfKind(s + [t], Expense) == OfKind(s, Expense);
  }

  /** `transactions.filter(type).reduce((sum, t) => sum + (t.amount || 0), 0)` as a JavaScript number. */
  function TotalNum(s: seq<Txn>, k: Kind): Num {
    Num(TotalOf(s, k))
  }

  /**
   * When every expense has an amount, every `categoryData` entry is a number
   * and the entries add up to the report's `totalExpense`.
   */
  lemma CategoryDataConserves(s: seq<Txn>)
    requires AmountsDefined(s, Expense)
    ensures forall i :: 0 <= i < |CategoryData(s)| ==> CategoryData(s)[i].1.Num?
    ensures SumOf(CategoryData(s), EntryNum) == TotalNum(s, Expense)
  {
    KindAmountsDefined(s, Expense);
    TallyConserves(OfKind(s, Expense), CategoryLabel, Raw);
    RawTotalOfDefined(s, Expense);
  }

  /**
   * When every expense has an amount, the entry of each category is the sum
   * of the amounts of the expenses with that label.
   */
  lemma CategoryDataPerKey(s: seq<Txn>, c: string)
    requires AmountsDefined(s, Expense)
    requires c in Keys(CategoryData(s))
    ensures Lookup(CategoryData(s), c) == Some(SumOf(OfKind(s, Expense), OnlyKey(CategoryLabel, Raw, c)))
  {
    KindAmountsDefined(s, Expense);
    FoldKeys(OfKind(s, Expense), CategoryLabel, AccumulateBy(Raw));
    TallyPerKey(OfKind(s, Expense), CategoryLabel, Raw, c);
  }

  /**
   * `incomeCategoryData` is the same tally as `categoryData` over the income
   * transactions with `amount || 0`: the two accumulation idioms agree.
   */
  lemma IncomeCategoryDataIsTally(s: seq<Txn>)
    ensures IncomeCategoryData(s) == Tally(OfKind(s, Income), CategoryLabel, AmountOr0)
  {
    forall p, t ensures IncomeStep(p, t) == AccumulateBy(AmountOr0)(p, t) {
      OrZeroPlusIsAccumulate(p, AmountOr0(t));
    }
    FoldSameStep(OfKind(s, Income), CategoryLabel, IncomeStep, AccumulateBy(AmountOr0));
  }

  /** The income entries are numbers and add up to the report's `totalIncome`. */
  lemma IncomeCategoryDataConserves(s: seq<Txn>)
    ensures forall i :: 0 <= i < |IncomeCategoryData(s)| ==> IncomeCategoryData(s)[i].1.Num?
    ensures SumOf(IncomeCategoryData(s), EntryNum) == TotalNum(s, Income)
  {
    IncomeCategoryDataIsTally(s);
    TallyConserves(OfKind(s, Income), CategoryLabel, AmountOr0);
    TotalOfIsFilteredSum(s, Income);
  }

  // ---------------------------------------------------------------------------
  // Breakdown tables
  // ---------------------------------------------------------------------------

  /** A quotient as JavaScript computes it: a finite value, or `NaN`/`Infinity`. */
  datatype Ratio = Finite(value: real) | NotFinite

  /** `(amount / total) * 100`, exactly (the one-decimal rounding of the display is not modelled). */
  function Percent(a: Num, total: int): (r: Ratio)
    ensures r.Finite? <==> a.Num? && total != 0
    ensures r.Finite? ==> r.value * (total as real) == (a.v as real) * 100.0
  {
    if a.Num? && total != 0 then Finite((a.v as real) * 100.0 / (total as real)) else NotFinite
  }

  /** One row of a breakdown table: category, amount, percentage of the type total. */
  datatype Row = Row(category: string, amount: Num, percent: Ratio)

  /** `entries.map(([category, amount]) => [category, amount, amount / total * 100])`. */
  function Rows(entries: Dict<Num>, total: int): (r: seq<Row>)
    ensures |r| == |entries|
    ensures forall i :: 0 <= i < |r| ==>
              r[i] == Row(entries[i].0, entries[i].1, Percent(entries[i].1, total))
  {
    seq(|entries|, i requires 0 <= i < |entries| => Row(entries[i].0, entries[i].1, Percent(entries[i].1, total)))
  }

  function RowEntry(r: Row): (string, Num) {
    (r.category, r.amount)
  }

  function RowEntries(rows: seq<Row>): (r: Dict<Num>)
    ensures |r| == |rows| && forall i :: 0 <= i < |rows| ==> r[i] == RowEntry(rows[i])
  {
    seq(|rows|, i requires 0 <= i < |rows| => RowEntry(rows[i]))
  }

  /**
   * A breakdown table: only when the map has a key and the type total is
   * positive, and then one row per entry, ordered by non-increasing amount.
   */
  function Breakdown(m: Dict<Num>, total: int): (r: Option<seq<Row>>)
    ensures r.Some? <==> |m| > 0 && total > 0
    ensures r.Some? ==> multiset(RowEntries(r.value)) == multiset(m)
    ensures r.Some? ==> forall i, j :: 0 <= i < j < |r.value| ==> Ge(r.value[i].amount, r.value[j].amount)
    ensures r.Some? ==> forall i :: 0 <= i < |r.value| ==> r.value[i].percent == Percent(r.value[i].amount, total)
  {
    if |Keys(m)| > 0 && total > 0 then
      var sorted := SortDesc(m, EntryNum);
      var rows := Rows(sorted, total);
      assert RowEntries(rows) == sorted;
      Some(rows)
    else None
  }

  /** The expense breakdown of the PDF report. */
  function ExpenseBreakdown(s: seq<Txn>): Option<seq<Row>> {
    Breakdown(CategoryData(s), TotalOf(s, Expense))
  }

  /** The income breakdown of the PDF report. */
  function IncomeBreakdown(s: seq<Txn>): Option<seq<Row>> {
    Breakdown(IncomeCategoryData(s), TotalOf(s, Income))
  }

  /**
   * A positive total already implies a category exists, so each table
   * appears exactly when its type total is positive.
   */
  lemma BreakdownGuards(s: seq<Txn>)
    ensures ExpenseBreakdown(s).Some? <==> TotalOf(s, Expense) > 0
    ensures IncomeBreakdown(s).Some? <==> TotalOf(s, Income) > 0
  {
    if TotalOf(s, Expense) > 0 {
      TotalOfNonzero(s, Expense);
      FoldFirstKey(OfKind(s, Expense), CategoryLabel, AccumulateBy(Raw));
    }
    if TotalOf(s, Income) > 0 {
      TotalOfNonzero(s, Income);
      FoldFirstKey(OfKind(s, Income), CategoryLabel, IncomeStep);
    }
  }

  /** A percentage as the table sums it: the finite value, and nothing for `NaN`/`Infinity`. */
  function PercentOf(r: Ratio): real {
    match r
    case Finite(p) => p
    case NotFinite => 0.0
  }

  /** The sum of a table's finite percentages. */
  ghost function PercentSum(rows: seq<Row>): real {
    if rows == [] then 0.0
    else PercentSum(rows[..|rows| - 1]) + PercentOf(rows[|rows| - 1].percent)
  }

  /** The sum of a sequence of reals, last element added last. */
  ghost function RealSum(xs: seq<real>): real {
    if xs == [] then 0.0 else RealSum(xs[..|xs| - 1]) + xs[|xs| - 1]
  }

  /** Termwise `x * t == y * 100` carries over to the sums. */
  lemma {:induction false} ScaledSum(xs: seq<real>, ys: seq<real>, t: real)
    requires |xs| == |ys|
    requires forall i :: 0 <= i < |xs| ==> xs[i] * t == ys[i] * 100.0
    ensures RealSum(xs) * t == RealSum(ys) * 100.0
  {
    if xs != [] {
      var n := |xs| - 1;
      ScaledSum(xs[..n], ys[..n], t);
      Distribute(RealSum(xs), RealSum(xs[..n]), xs[n], t, RealSum(ys), RealSum(ys[..n]), ys[n]);
    }
  }

  ghost function PercentValues(entries: Dict<Num>, total: int): (r: seq<real>)
    ensures |r| == |entries| && forall i :: 0 <= i < |entries| ==> r[i] == PercentOf(Percent(entries[i].1, total))
  {
    seq(|entries|, i requires 0 <= i < |entries| => PercentOf(Percent(entries[i].1, total)))
  }

  ghost function AmountValues(entries: Dict<Num>): (r: seq<real>)
    ensures |r| == |entries| && forall i :: 0 <= i < |entries| ==> r[i] == RealOf(entries[i].1)
  {
    seq(|entries|, i requires 0 <= i < |entries| => RealOf(entries[i].1))
  }

  ghost function RealOf(a: Num): real {
    if a.Num? then a.v as real else 0.0
  }

  /** Each numeric row's percentage times the total is 100 times its amount. */
  lemma PercentTerms(entries: Dict<Num>, total: int)
    requires total != 0
    requires forall i :: 0 <= i < |entries| ==> entries[i].1.Num?
    ensures forall i :: 0 <= i < |entries| ==>
              PercentValues(entries, total)[i] * (total as real) == AmountValues(entries)[i] * 100.0
  {
    forall i | 0 <= i < |entries|
      ensures PercentValues(entries, total)[i] * (total as real) == AmountValues(entries)[i] * 100.0
    {
      var p := Percent(entries[i].1, total);
      assert p.value * (total as real) == (entries[i].1.v as real) * 100.0;
    }
  }

  lemma {:induction false} PercentSumValues(entries: Dict<Num>, total: int)
    ensures PercentSum(Rows(entries, total)) == RealSum(PercentValues(entries, total))
  {
    if entries != [] {
      var n := |entries| - 1;
      PercentSumValues(entries[..n], total);
      assert Rows(entries, total)[..n] == Rows(entries[..n], total);
      assert PercentValues(entries, total)[..n] == PercentValues(entries[..n], total);
    } else {
      assert Rows(entries, total) == [];
    }
  }

  lemma {:induction false} SumOfValues(entries: Dict<Num>)
    requires forall i :: 0 <= i < |entries| ==> entries[i].1.Num?
    ensures SumOf(entries, EntryNum).Num?
    ensures SumOf(entries, EntryNum).v as real == RealSum(AmountValues(entries))
  {
    SumOfDefined(entries, EntryNum);
    if entries != [] {
      var n := |entries| - 1;
      SumOfValues(entries[..n]);
      SumOfLast(entries, EntryNum);
      assert AmountValues(entries)[..n] == AmountValues(entries[..n]);
    }
  }

  /** With numeric amounts, the percentages of all rows times the total are 100 times the amounts' sum. */
  lemma {:induction false} RowsPercentSum(entries: Dict<Num>, total: int)
    requires total != 0
    requires forall i :: 0 <= i < |entries| ==> entries[i].1.Num?
    ensures SumOf(entries, EntryNum).Num?
    ensures PercentSum(Rows(entries, total)) * (total as real) == (SumOf(entries, EntryNum).v as real) * 100.0
  {
    PercentTerms(entries, total);
    ScaledSum(PercentValues(entries, total), AmountValues(entries), total as real);
    PercentSumValues(entries, total);
    SumOfValues(entries);
  }

  /** Adding one percentage and its amount keeps `percents * total == amounts * 100`. */
  lemma Distribute(x: real, x': real, p: real, t: real, y: real, y': real, a: real)
    requires x == x' + p && y == y' + a
    requires x' * t == y' * 100.0 && p * t == a * 100.0
    ensures x * t == y * 100.0
  {
    assert (x' + p) * t == x' * t + p * t;
  }

  /** `x * t == s * 100` with `s == t != 0` gives `x == 100`. */
  lemma Hundred(x: real, t: real, s: real)
    requires t != 0.0 && s == t && x * t == s * 100.0
    ensures x == 100.0
  {
    assert (x - 100.0) * t == 0.0;
  }

  /** A table over numeric entries summing to its positive total has percentages summing to 100. */
  lemma {:induction false} BreakdownPercentsSum(m: Dict<Num>, total: int)
    requires total > 0 && |m| > 0
    requires forall i :: 0 <= i < |m| ==> m[i].1.Num?
    requires SumOf(m, EntryNum) == Num(total)
    ensures Breakdown(m, total).Some? && PercentSum(Breakdown(m, total).value) == 100.0
  {
    var sorted := SortDesc(m, EntryNum);
    SortedNums(m);
    SortKeepsSum(m, EntryNum, EntryNum);
    PercentsHundred(sorted, total);
  }

  /** Numeric entries summing to a positive total give percentages summing to 100. */
  lemma {:induction false} PercentsHundred(entries: Dict<Num>, total: int)
    requires total > 0
    requires forall i :: 0 <= i < |entries| ==> entries[i].1.Num?
    requires SumOf(entries, EntryNum) == Num(total)
    ensures PercentSum(Rows(entries, total)) == 100.0
  {
    RowsPercentSum(entries, total);
    var x := PercentSum(Rows(entries, total));
    var t := total as real;
    var v := SumOf(entries, EntryNum).v as real;
    assert x * t == v * 100.0;
    assert v == t;
    Hundred(x, t, v);
  }

  /** Sorting numeric entries leaves them numeric. */
  lemma {:induction false} SortedNums(m: Dict<Num>)
    requires forall i :: 0 <= i < |m| ==> m[i].1.Num?
    ensures forall i :: 0 <= i < |SortDesc(m, EntryNum)| ==> SortDesc(m, EntryNum)[i].1.Num?
  {
    var sorted := SortDesc(m, EntryNum);
    forall i | 0 <= i < |sorted| ensures sorted[i].1.Num? {
      assert sorted[i] in multiset(m);
      var j :| 0 <= j < |m| && m[j] == sorted[i];
    }
  }

  /** When every expense has an amount, the expense table's percentages add up to 100. */
  lemma ExpensePercentsSum(s: seq<Txn>)
    requires AmountsDefined(s, Expense) && TotalOf(s, Expense) > 0
    ensures ExpenseBreakdown(s).Some? && PercentSum(ExpenseBreakdown(s).value) == 100.0
  {
    BreakdownGuards(s);
    CategoryDataConserves(s);
    BreakdownPercentsSum(CategoryData(s), TotalOf(s, Expense));
  }

  /** The income table's percentages add up to 100 (a missing amount counts as 0 on both sides). */
  lemma IncomePercentsSum(s: seq<Txn>)
    requires TotalOf(s, Income) > 0
    ensures IncomeBreakdown(s).Some? && PercentSum(IncomeBreakdown(s).value) == 100.0
  {
    BreakdownGuards(s);
    IncomeCategoryDataConserves(s);
    BreakdownPercentsSum(IncomeCategoryData(s), TotalOf(s, Income));
  }

  /**
   * The CSV category rows: every `categoryData` entry in insertion order,
   * each with its percentage of the expense total, with no guard on that
   * total.
   */
  function CsvCategoryRows(s: seq<Txn>): (r: seq<Row>)
    ensures RowEntries(r) == CategoryData(s)
    ensures forall i :: 0 <= i < |r| ==> r[i].percent == Percent(r[i].amount, TotalOf(s, Expense))
  {
    var r := Rows(CategoryData(s), TotalOf(s, Expense));
    assert RowEntries(r) == CategoryData(s);
    r
  }

  /**
   * Unlike the PDF tables, the CSV rows are computed with no guard on the
   * expense total: for a zero total every percentage is non-finite.
   */
  lemma CsvZeroTotal(s: seq<Txn>)
    requires TotalOf(s, Expense) == 0
    ensures forall i :: 0 <= i < |CsvCategoryRows(s)| ==> CsvCategoryRows(s)[i].percent == NotFinite
  {
  }

  /**
   * When every expense has an amount, a zero expense total does not stop the
   * CSV export: the category rows are written, each with a non-finite
   * percentage.
   */
  lemma CsvZeroTotalWritten(s: seq<Txn>)
    requires AmountsDefined(s, Expense) && TotalOf(s, Expense) == 0
    ensures CsvCategorySection(s) == Some(CsvCategoryRows(s))
    ensures forall i :: 0 <= i < |CsvCategoryRows(s)| ==> CsvCategoryRows(s)[i].percent == NotFinite
  {
    ExportsSucceed(s);
    CsvZeroTotal(s);
  }

  // ---------------------------------------------------------------------------
  // Rendering the amounts
  // ---------------------------------------------------------------------------

  /** Some row's amount is `undefined`, on which `amount.toLocaleString(...)` throws. */
  predicate HasUndefined(rows: seq<Row>) {
    exists i :: 0 <= i < |rows| && rows[i].amount.Undefined?
  }

  const PdfFailed: string := "Failed to generate PDF. Please try again."

  /** The two breakdown tables of a PDF report, each absent when its guard fails. */
  datatype PdfTables = PdfTables(expense: Option<seq<Row>>, income: Option<seq<Row>>)

  /**
   * `exportToPDF` as far as the tables go: when the expense table is drawn
   * and one of its amounts is `undefined`, formatting it throws and the
   * handler's `catch` shows the alert instead of saving a file.
   */
  function PdfReport(s: seq<Txn>): (r: Result<PdfTables, string>)
    ensures r.Failure? <==> ExpenseBreakdown(s).Some? && HasUndefined(ExpenseBreakdown(s).value)
    ensures r.Failure? ==> r.error == PdfFailed
    ensures r.Success? ==> r.value == PdfTables(ExpenseBreakdown(s), IncomeBreakdown(s))
  {
    var e := ExpenseBreakdown(s);
    if e.Some? && HasUndefined(e.value) then Failure(PdfFailed)
    else Success(PdfTables(e, IncomeBreakdown(s)))
  }

  /**
   * `exportToCSV`'s category section: the rows, or `None` when an amount is
   * `undefined` and the uncaught exception ends the export before any file
   * is made.
   */
  function CsvCategorySection(s: seq<Txn>): (r: Option<seq<Row>>)
    ensures r.None? <==> HasUndefined(CsvCategoryRows(s))
    ensures r.Some? ==> r.value == CsvCategoryRows(s)
  {
    var rows := CsvCategoryRows(s);
    if HasUndefined(rows) then None else Some(rows)
  }

  /** When every expense has an amount, both exports go through. */
  lemma ExportsSucceed(s: seq<Txn>)
    requires AmountsDefined(s, Expense)
    ensures PdfReport(s).Success? && CsvCategorySection(s).Some?
  {
    CategoryDataConserves(s);
    var m := CategoryData(s);
    var csv := CsvCategoryRows(s);
    assert forall i :: 0 <= i < |csv| ==> csv[i].amount == m[i].1;
    if ExpenseBreakdown(s).Some? {
      var rows := ExpenseBreakdown(s).value;
      forall i | 0 <= i < |rows| ensures !rows[i].amount.Undefined? {
        assert RowEntries(rows)[i] in multiset(m);
        var j :| 0 <= j < |m| && m[j] == RowEntries(rows)[i];
      }
    }
  }

  /**
   * An expense without an amount, first of its category, followed by a
   * positive expense of another category, stops both exports: its entry
   * is stored as `undefined`.
   */
  lemma MissingAmountStopsExports(a: Txn, b: Txn)
    requires a.kind == Expense && b.kind == Expense && a.amount.None? && b.amount.Some? && b.amount.value > 0
    requires CategoryLabel(a) != CategoryLabel(b)
    ensures PdfReport([a, b]).Failure? && CsvCategorySection([a, b]).None?
  {
    var s := [a, b];
    var m := TwoExpenses(a, b);
    assert s[..1] == [a] && [a][..0] == [];
    assert TotalOf([a], Expense) == 0;
    assert TotalOf(s, Expense) > 0;
    BreakdownGuards(s);
    var rows := ExpenseBreakdown(s).value;
    var e := (CategoryLabel(a), Undefined);
    assert e in multiset(RowEntries(rows)) by {
      assert m[0] == e;
    }
    var i :| 0 <= i < |rows| && RowEntries(rows)[i] == e;
    assert rows[i].amount.Undefined?;
    assert CsvCategoryRows(s)[0].amount == Undefined;
  }

  /** The smallest case: a `Food` expense with no amount, then `Rent` at 100. */
  lemma FoodWithoutAmount()
    ensures var s := [Txn("1", Expense, Some("Food"), None, Date(1, "Jan"), None, None),
                      Txn("2", Expense, Some("Rent"), Some(100), Date(2, "Jan"), None, None)];
            && CategoryData(s) == [("Food", Undefined), ("Rent", Num(100))]
            && PdfReport(s).Failure? && CsvCategorySection(s).None?
  {
    var a := Txn("1", Expense, Some("Food"), None, Date(1, "Jan"), None, None);
    var b := Txn("2", Expense, Some("Rent"), Some(100), Date(2, "Jan"), None, None);
    var m := TwoExpenses(a, b);
    MissingAmountStopsExports(a, b);
  }

  /** `categoryData` of a missing-amount expense followed by an expense of another category. */
  lemma TwoExpenses(a: Txn, b: Txn) returns (m: Dict<Num>)
    requires a.kind == Expense && b.kind == Expense && a.amount.None? && b.amount.Some?
    requires CategoryLabel(a) != CategoryLabel(b)
    ensures m == CategoryData([a, b]) == [(CategoryLabel(a), Undefined), (CategoryLabel(b), Num(b.amount.value))]
  {
    var s := [a, b];
    assert s[..1] == [a];
    assert [a][..0] == [];
    assert OfKind(s, Expense) == s by {
      assert OfKind([a], Expense) == [a];
    }
    var step := AccumulateBy(Raw);
    var m0: Dict<Num> := [];
    assert Fold([a][..0], CategoryLabel, step) == m0;
    assert Lookup(m0, CategoryLabel(a)) == None;
    assert step(None, a) == Undefined;
    var m1 := Fold([a], CategoryLabel, step);
    assert m1 == Put(m0, CategoryLabel(a), Undefined);
    assert m1 == [(CategoryLabel(a), Undefined)];
    assert Lookup(m1, CategoryLabel(b)) == None;
    m := Fold(s, CategoryLabel, step);
    assert step(None, b) == Num(b.amount.value);
    assert m == Put(m1, CategoryLabel(b), Num(b.amount.value));
    assert IndexOf(m1, CategoryLabel(b)) == None;
  }

  // ---------------------------------------------------------------------------
  // Recent transactions
  // ---------------------------------------------------------------------------

  /** One row of the recent-transactions table. */
  datatype RecentRow = RecentRow(date: Date, description: string, category: string, kind: string, amount: int)

  /**
   * `(t.note || t.description || 'N/A').substring(0, 25)`, `t.category || 'N/A'`,
   * `'Income'` or `'Expense'`, and `t.amount || 0`.
   */
  function RecentRowOf(t: Txn): (r: RecentRow)
    ensures r.date == t.date
    ensures var text := OrDefault(t.note, OrDefault(t.description, "N/A"));
            r.description == text[..if |text| < 25 then |text| else 25]
    ensures r.category == OrDefault(t.category, "N/A")
    ensures r.kind == (if t.kind == Income then "Income" else "Expense")
    ensures r.amount == if t.amount.Some? then t.amount.value else 0
  {
    RecentRow(t.date, Prefix(OrDefault(t.note, OrDefault(t.description, "N/A")), 25),
              OrDefault(t.category, "N/A"), if t.kind == Income then "Income" else "Expense",
              t.amount.GetOr(0))
  }

  /** The PDF's "Recent Transactions (Last 20)" table. */
  function RecentTable(s: seq<Txn>): seq<RecentRow> {
    RowsOf(MostRecent(s, 20))
  }

  /** One table row per transaction, in order. */
  function RowsOf(recent: seq<Txn>): (r: seq<RecentRow>)
    ensures |r| == |recent| && forall i :: 0 <= i < |r| ==> r[i] == RecentRowOf(recent[i])
  {
    seq(|recent|, i requires 0 <= i < |recent| => RecentRowOf(recent[i]))
  }

  /**
   * The table has at most 20 rows, one per transaction among the 20 newest,
   * newest first; no transaction left out is newer than one shown.
   */
  lemma RecentTableSpec(s: seq<Txn>)
    ensures |RecentTable(s)| == if |s| < 20 then |s| else 20
    ensures forall i, j :: 0 <= i < j < |RecentTable(s)| ==> RecentTable(s)[i].date.day >= RecentTable(s)[j].date.day
    ensures forall i :: 0 <= i < |RecentTable(s)| ==>
              RecentTable(s)[i] == RecentRowOf(MostRecent(s, 20)[i]) && MostRecent(s, 20)[i] in s
    ensures forall i, t :: 0 <= i < |RecentTable(s)| && t in multiset(s) - multiset(MostRecent(s, 20)) ==>
              RecentTable(s)[i].date.day >= t.date.day
  {
    MostRecentSpec(s, 20);
    RecentRows(s, MostRecent(s, 20));
  }

  /** The rows of transactions taken newest first from `s` keep that order and what was left out. */
  lemma {:induction false} RecentRows(s: seq<Txn>, recent: seq<Txn>)
    requires forall i, j :: 0 <= i < j < |recent| ==> recent[i].date.day >= recent[j].date.day
    requires multiset(recent) <= multiset(s)
    requires forall i, t :: 0 <= i < |recent| && t in multiset(s) - multiset(recent) ==>
               recent[i].date.day >= t.date.day
    ensures forall i, j :: 0 <= i < j < |RowsOf(recent)| ==> RowsOf(recent)[i].date.day >= RowsOf(recent)[j].date.day
    ensures forall i :: 0 <= i < |RowsOf(recent)| ==> RowsOf(recent)[i] == RecentRowOf(recent[i]) && recent[i] in s
    ensures forall i, t :: 0 <= i < |RowsOf(recent)| && t in multiset(s) - multiset(recent) ==>
              RowsOf(recent)[i].date.day >= t.date.day
  {
    var r := RowsOf(recent);
    forall i | 0 <= i < |recent| ensures recent[i] in s {
      assert recent[i] in multiset(recent);
    }
    forall i, j | 0 <= i < j < |r| ensures r[i].date.day >= r[j].date.day {
      assert r[i].date == recent[i].date && r[j].date == recent[j].date;
    }
    forall i, t | 0 <= i < |r| && t in multiset(s) - multiset(recent) ensures r[i].date.day >= t.date.day {
      assert r[i].date == recent[i].date;
    }
  }

  // ---------------------------------------------------------------------------
  // Spending analysis
  // ---------------------------------------------------------------------------

  const NoExpenseData: string := "You don't have any expense data to analyze yet. Try adding some transactions!"
  const AnalysisFailed: string := "Sorry, I couldn't generate an analysis right now. Please try again later."
  const NoAnalysis: string := "Sorry, I couldn't generate an analysis. No response from AI."
  const AnalysisError: string := "An error occurred while analyzing your spending. Please check your connection."

  /** The analysis request: the expense transactions listed in the prompt (if it was sent), how the loop went, and the message shown. */
  datatype Analysis = Analysis(listed: Option<seq<Txn>>, outcome: Option<Outcome>, message: string)

  /** The message shown for the loop's last reply. */
  function AnalysisMessage(last: Reply): (r: string)
    ensures r != []
    ensures IsOk(last) && last.body.Text? && last.body.text != [] ==> r == last.body.text
    ensures last.Response? && !IsOk(last) ==> r == AnalysisFailed
    ensures last.NetworkError? || (IsOk(last) && last.body.Malformed?) ==> r == AnalysisError
    ensures IsOk(last) && (last.body.NoText? || last.body == Text([])) ==> r == NoAnalysis
  {
    if last.NetworkError? then AnalysisError
    else if !IsOk(last) then AnalysisFailed
    else
      match last.body
      case Malformed => AnalysisError
      case NoText => NoAnalysis
      case Text(t) => if t == [] then NoAnalysis else t
  }

  /**
   * `handleGetAnalysis`: without expense transactions the fixed "no expense
   * data" message is shown and nothing is sent; without an API key the
   * configuration message is shown and nothing is sent; otherwise a prompt
   * listing every expense transaction goes through the retry loop.
   */
  function GetAnalysis(s: seq<Txn>, apiKey: string, server: nat -> Reply): (r: Analysis)
    ensures OfKind(s, Expense) == [] ==> r == Analysis(None, None, NoExpenseData)
    ensures OfKind(s, Expense) != [] && apiKey == [] ==> r == Analysis(None, None, MissingKey)
    ensures r.listed.Some? <==> OfKind(s, Expense) != [] && apiKey != []
    ensures r.outcome.Some? <==> r.listed.Some?
    ensures r.listed.Some? ==> r.listed.value == OfKind(s, Expense)
    ensures r.outcome.Some? ==> r.message == AnalysisMessage(r.outcome.value.last)
    ensures r.message != []
  {
    var expenses := OfKind(s, Expense);
    if expenses == [] then Analysis(None, None, NoExpenseData)
    else if apiKey == [] then Analysis(None, None, MissingKey)
    else
      var o := Run(server);
      Analysis(Some(expenses), Some(o), AnalysisMessage(o.last))
  }
}
