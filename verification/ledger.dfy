/**
 * Transactions as the frontend receives them from the backend, and the
 * aggregation steps the Analytics, Dashboard and Transactions components
 * share: filtering by type, summing amounts, ordering by date, and tallying
 * amounts into a dictionary keyed by a label of the transaction.
 */
module Ledger {
  import opened Wrappers
  import opened Numbers
  import opened Sorting
  import opened Dicts

  /** The `type` field: `'income'`, `'expense'`, or any other string the backend stored. */
  datatype Kind = Income | Expense | OtherKind(name: string)

  /** A date, abstracted to an ordered day index and the short month name it displays as. */
  datatype Date = Date(day: int, month: string)

  /** One transaction record; `amount` is in minor currency units. */
  datatype Txn = Txn(
    id: string,
    kind: Kind,
    category: Option<string>,
    amount: Option<int>,
    date: Date,
    note: Option<string>,
    description: Option<string>)

  /** The string `${t.type}` renders. */
  function KindName(k: Kind): string {
    match k
    case Income => "income"
    case Expense => "expense"
    case OtherKind(name) => name
  }

  /** `t.amount` as it is: a missing amount is `undefined`, which adds like `NaN`. */
  function Raw(t: Txn): Num {
    if t.amount.Some? then Num(t.amount.value) else Undefined
  }

  /** `0 + t.amount`: a missing amount becomes `NaN`. */
  function ZeroPlus(t: Txn): (r: Num)
    ensures r == AsNumber(Raw(t))
  {
    if t.amount.Some? then Num(t.amount.value) else NaN
  }

  /** `o || d` for an optional string: a missing or empty string gives `d`. */
  function OrDefault(o: Option<string>, d: string): (r: string)
    ensures o.Some? && o.value != [] ==> r == o.value
    ensures o.None? || o.value == [] ==> r == d
  {
    if o.Some? && o.value != [] then o.value else d
  }

  /** `t.amount || 0`. */
  function AmountOr0(t: Txn): Num {
    Num(t.amount.GetOr(0))
  }

  /** `s.filter(t => t.type === k)`. */
  function OfKind(s: seq<Txn>, k: Kind): seq<Txn> {
    if s == [] then []
    else OfKind(s[..|s| - 1], k) + (if s[|s| - 1].kind == k then [s[|s| - 1]] else [])
  }

  /** The filter keeps exactly the transactions of type `k`. */
  lemma {:induction false} OfKindMembers(s: seq<Txn>, k: Kind)
    ensures forall t :: t in OfKind(s, k) <==> t in s && t.kind == k
  {
    if s != [] {
      OfKindMembers(s[..|s| - 1], k);
      assert s == s[..|s| - 1] + [s[|s| - 1]];
    }
  }

  /** The filter keeps every transaction of type `k` as often as it occurs, and nothing else. */
  lemma {:induction false} OfKindMultiset(s: seq<Txn>, k: Kind)
    ensures forall t :: multiset(OfKind(s, k))[t] == if t.kind == k then multiset(s)[t] else 0
  {
    if s != [] {
      var n := |s| - 1;
      OfKindMultiset(s[..n], k);
      assert s == s[..n] + [s[n]];
      assert multiset(s) == multiset(s[..n]) + multiset{s[n]};
    }
  }

  /** Reordering the transactions reorders the filtered ones the same way. */
  lemma OfKindPermutation(a: seq<Txn>, b: seq<Txn>, k: Kind)
    requires multiset(a) == multiset(b)
    ensures multiset(OfKind(a, k)) == multiset(OfKind(b, k))
  {
    OfKindMultiset(a, k);
    OfKindMultiset(b, k);
    assert forall t :: multiset(OfKind(a, k))[t] == multiset(OfKind(b, k))[t];
  }

  lemma {:induction false} OfKindConcat(a: seq<Txn>, b: seq<Txn>, k: Kind)
    ensures OfKind(a + b, k) == OfKind(a, k) + OfKind(b, k)
  {
    if b == [] {
      assert a + b == a;
    } else {
      assert (a + b)[..|a + b| - 1] == a + b[..|b| - 1];
      OfKindConcat(a, b[..|b| - 1], k);
    }
  }

  /** The amount `t` adds to the total of type `k`: `t.amount || 0` when it has that type. */
  function Contribution(t: Txn, k: Kind): int {
    if t.kind == k then t.amount.GetOr(0) else 0
  }

  /** The total of type `k`, a missing amount counting as 0. */
  function TotalOf(s: seq<Txn>, k: Kind): int {
    if s == [] then 0 else TotalOf(s[..|s| - 1], k) + Contribution(s[|s| - 1], k)
  }

  /** `s.filter(t => t.type === k).reduce((sum, t) => sum + t.amount, 0)`. */
  function RawTotalOf(s: seq<Txn>, k: Kind): Num {
    SumOf(OfKind(s, k), Raw)
  }

  /**
   * `s.filter(t => t.type === k).reduce((sum, t) => sum + (t.amount || 0), 0)`
   * is `TotalOf(s, k)`: appending a transaction raises the total of its own
   * type by its amount, a missing amount counting as 0.
   */
  lemma {:induction false} TotalOfIsFilteredSum(s: seq<Txn>, k: Kind)
    ensures SumOf(OfKind(s, k), AmountOr0) == Num(TotalOf(s, k))
  {
    if s != [] {
      TotalOfIsFilteredSum(s[..|s| - 1], k);
      FilteredSumStep(s, k);
    }
  }

  /** Filtering then summing `amount || 0` takes one step per transaction. */
  lemma FilteredSumStep(s: seq<Txn>, k: Kind)
    requires s != []
    ensures SumOf(OfKind(s, k), AmountOr0)
            == Plus(SumOf(OfKind(s[..|s| - 1], k), AmountOr0), Num(Contribution(s[|s| - 1], k)))
  {
    var n := |s| - 1;
    var f := OfKind(s[..n], k);
    if s[n].kind == k {
      var g := f + [s[n]];
      assert OfKind(s, k) == g;
      assert g[..|g| - 1] == f;
      SumOfLast(g, AmountOr0);
    } else {
      assert OfKind(s, k) == f + [] == f;
      assert SumOf(f, AmountOr0).Num? by {
        SumOfDefined(f, AmountOr0);
      }
    }
  }

  /** A non-zero total needs at least one transaction of that type. */
  lemma {:induction false} TotalOfNonzero(s: seq<Txn>, k: Kind)
    requires TotalOf(s, k) != 0
    ensures OfKind(s, k) != []
  {
    var n := |s| - 1;
    if s[n].kind == k {
      assert OfKind(s, k) == OfKind(s[..n], k) + [s[n]];
    } else {
      TotalOfNonzero(s[..n], k);
    }
  }

  /** The signed amount of one transaction: `+amount` for income, `-amount` for expense, a missing amount as 0. */
  function Signed(t: Txn): int {
    Contribution(t, Income) - Contribution(t, Expense)
  }

  /** Every transaction's signed amount added up, left to right. */
  function SignedTotal(s: seq<Txn>): int {
    if s == [] then 0 else SignedTotal(s[..|s| - 1]) + Signed(s[|s| - 1])
  }

  /** `totalIncome - totalExpense`, both totals counting a missing amount as 0. */
  function NetBalance(s: seq<Txn>): int {
    TotalOf(s, Income) - TotalOf(s, Expense)
  }

  /**
   * The net balance is the running sum of signed amounts: income adds,
   * expense subtracts, any other type contributes nothing.
   */
  lemma {:induction false} NetBalanceIsSignedTotal(s: seq<Txn>)
    ensures NetBalance(s) == SignedTotal(s)
  {
    if s != [] {
      NetBalanceIsSignedTotal(s[..|s| - 1]);
    }
  }

  /** Every transaction of type `k` has an amount. */
  ghost predicate AmountsDefined(s: seq<Txn>, k: Kind) {
    forall i :: 0 <= i < |s| && s[i].kind == k ==> s[i].amount.Some?
  }

  /**
   * Summing the raw amounts agrees with summing `amount || 0` when every
   * transaction of that type has an amount; otherwise the raw sum is `NaN`.
   */
  lemma {:induction false} RawTotalOfDefined(s: seq<Txn>, k: Kind)
    ensures RawTotalOf(s, k) == if AmountsDefined(s, k) then Num(TotalOf(s, k)) else NaN
  {
    if s != [] {
      var n := |s| - 1;
      RawTotalOfDefined(s[..n], k);
      RawTotalStep(s, k);
      AmountsDefinedStep(s, k);
      RawStep(RawTotalOf(s[..n], k), TotalOf(s[..n], k), AmountsDefined(s[..n], k), s[n], k,
              RawTotalOf(s, k), TotalOf(s, k), AmountsDefined(s, k));
    }
  }

  /** One step of the raw sum against one step of the total, whatever came before. */
  lemma RawStep(before: Num, total: int, defined: bool, t: Txn, k: Kind, after: Num, total': int, defined': bool)
    requires before == if defined then Num(total) else NaN
    requires after == if t.kind == k then Plus(before, Raw(t)) else before
    requires total' == total + Contribution(t, k)
    requires defined' == (defined && (t.kind == k ==> t.amount.Some?))
    ensures after == if defined' then Num(total') else NaN
  {
  }

  /** Every amount of type `k` is present exactly when it is so in all but the last transaction and in the last. */
  lemma AmountsDefinedStep(s: seq<Txn>, k: Kind)
    requires s != []
    ensures AmountsDefined(s, k)
            <==> AmountsDefined(s[..|s| - 1], k) && (s[|s| - 1].kind == k ==> s[|s| - 1].amount.Some?)
  {
    assert forall i :: 0 <= i < |s| - 1 ==> s[..|s| - 1][i] == s[i];
  }

  /** Filtering then summing the raw amounts takes one step per transaction. */
  lemma RawTotalStep(s: seq<Txn>, k: Kind)
    requires s != []
    ensures RawTotalOf(s, k)
            == if s[|s| - 1].kind == k then Plus(RawTotalOf(s[..|s| - 1], k), Raw(s[|s| - 1])) else RawTotalOf(s[..|s| - 1], k)
  {
    var n := |s| - 1;
    var f := OfKind(s[..n], k);
    if s[n].kind == k {
      var g := f + [s[n]];
      assert OfKind(s, k) == g;
      assert g[..|g| - 1] == f;
    } else {
      assert OfKind(s, k) == f + [] == f;
    }
  }

  /** The sort key of `new Date(t.date)`. */
  function DateKey(t: Txn): Num {
    Num(t.date.day)
  }

  /** `s.sort((a, b) => new Date(b.date) - new Date(a.date))`: newest first, stable. */
  function ByDateDesc(s: seq<Txn>): seq<Txn> {
    SortDesc(s, DateKey)
  }

  /** `s.sort(byDateDesc).slice(0, n)`: the `n` newest transactions, newest first. */
  function MostRecent(s: seq<Txn>, n: nat): seq<Txn> {
    TopN(s, DateKey, n)
  }

  /**
   * The `n` newest transactions: at most `n` of them, newest first, all taken
   * from `s`, and no transaction left out is newer than one kept.
   */
  lemma MostRecentSpec(s: seq<Txn>, n: nat)
    ensures |MostRecent(s, n)| == if |s| < n then |s| else n
    ensures forall i, j :: 0 <= i < j < |MostRecent(s, n)| ==>
              MostRecent(s, n)[i].date.day >= MostRecent(s, n)[j].date.day
    ensures multiset(MostRecent(s, n)) <= multiset(s)
    ensures forall i, t :: 0 <= i < |MostRecent(s, n)| && t in multiset(s) - multiset(MostRecent(s, n)) ==>
              MostRecent(s, n)[i].date.day >= t.date.day
  {
    NewestDays(s, MostRecent(s, n));
  }

  /** Date keys ordered newest first are days ordered newest first. */
  lemma {:induction false} NewestDays(s: seq<Txn>, r: seq<Txn>)
    requires SortedDesc(r, DateKey)
    requires forall i, x :: 0 <= i < |r| && x in multiset(s) - multiset(r) ==> Ge(DateKey(r[i]), DateKey(x))
    ensures forall i, j :: 0 <= i < j < |r| ==> r[i].date.day >= r[j].date.day
    ensures forall i, t :: 0 <= i < |r| && t in multiset(s) - multiset(r) ==> r[i].date.day >= t.date.day
  {
    forall i, j | 0 <= i < j < |r| ensures r[i].date.day >= r[j].date.day {
      assert Ge(DateKey(r[i]), DateKey(r[j]));
    }
    forall i, t | 0 <= i < |r| && t in multiset(s) - multiset(r) ensures r[i].date.day >= t.date.day {
      assert Ge(DateKey(r[i]), DateKey(t));
    }
  }

  // ---------------------------------------------------------------------------
  // Tallying into a dictionary
  // ---------------------------------------------------------------------------

  /**
   * `s.reduce((acc, t) => { acc[keyOf(t)] = step(acc[keyOf(t)], t); return acc }, {})`:
   * each transaction updates the entry of its key, creating it on first sight.
   */
  function Fold<V>(s: seq<Txn>, keyOf: Txn -> string, step: (Option<V>, Txn) -> V): Dict<V> {
    if s == [] then []
    else
      var m := Fold(s[..|s| - 1], keyOf, step);
      var k := keyOf(s[|s| - 1]);
      Put(m, k, step(Lookup(m, k), s[|s| - 1]))
  }

  /** One step of a fold: the last transaction updates the entry of its key in the fold of the others. */
  lemma FoldLast<V>(s: seq<Txn>, keyOf: Txn -> string, step: (Option<V>, Txn) -> V)
    requires s != []
    ensures var m := Fold(s[..|s| - 1], keyOf, step);
            var t := s[|s| - 1];
            Fold(s, keyOf, step) == Put(m, keyOf(t), step(Lookup(m, keyOf(t)), t))
  {
  }

  /** Some transaction of `s` has key `k`. */
  ghost predicate HasKey(s: seq<Txn>, keyOf: Txn -> string, k: string) {
    exists i :: 0 <= i < |s| && keyOf(s[i]) == k
  }

  /** `HasKey` in terms of membership. */
  lemma HasKeyMembers(s: seq<Txn>, keyOf: Txn -> string, k: string)
    ensures HasKey(s, keyOf, k) <==> exists t :: t in s && keyOf(t) == k
  {
    if exists t :: t in s && keyOf(t) == k {
      var t :| t in s && keyOf(t) == k;
      var i :| 0 <= i < |s| && s[i] == t;
    }
  }

  /** The keys of a fold are exactly the keys of its transactions, each once. */
  lemma {:induction false} FoldKeys<V>(s: seq<Txn>, keyOf: Txn -> string, step: (Option<V>, Txn) -> V)
    ensures DistinctKeys(Fold(s, keyOf, step))
    ensures forall k :: k in Keys(Fold(s, keyOf, step)) <==> HasKey(s, keyOf, k)
  {
    if s != [] {
      FoldKeys(s[..|s| - 1], keyOf, step);
    }
    FoldFirstKeys(s, keyOf, step);
    forall k ensures k in FirstKeys(s, keyOf) <==> HasKey(s, keyOf, k) {
      if k in FirstKeys(s, keyOf) {
        var p := FirstKeyWitness(s, keyOf, k);
      }
      if HasKey(s, keyOf, k) {
        var p :| 0 <= p < |s| && keyOf(s[p]) == k;
        FirstKeyOf(s, keyOf, p);
      }
    }
  }

  /**
   * The keys of a fold are in order of first appearance: before the first
   * transaction of a later key there is a transaction of every earlier key.
   */
  lemma FoldKeyOrder<V>(s: seq<Txn>, keyOf: Txn -> string, step: (Option<V>, Txn) -> V)
    ensures forall i, j, q :: 0 <= i < j < |Fold(s, keyOf, step)| && 0 <= q < |s|
              && keyOf(s[q]) == Fold(s, keyOf, step)[j].0
              ==> exists p :: 0 <= p < q && keyOf(s[p]) == Fold(s, keyOf, step)[i].0
  {
    var f := Fold(s, keyOf, step);
    forall i, j, q | 0 <= i < j < |f| && 0 <= q < |s| && keyOf(s[q]) == f[j].0
      ensures exists p :: 0 <= p < q && keyOf(s[p]) == f[i].0
    {
      FoldFirstKeys(s, keyOf, step);
      assert Keys(f)[i] == f[i].0 && Keys(f)[j] == f[j].0;
      var p := FirstKeyBefore(s, keyOf, i, j, q);
    }
  }

  /** The distinct keys of `s` in order of first appearance. */
  function FirstKeys(s: seq<Txn>, keyOf: Txn -> string): seq<string> {
    if s == [] then []
    else
      var m := FirstKeys(s[..|s| - 1], keyOf);
      var k := keyOf(s[|s| - 1]);
      if k in m then m else m + [k]
  }

  /** A fold's keys are the keys of its transactions in order of first appearance. */
  lemma {:induction false} FoldFirstKeys<V>(s: seq<Txn>, keyOf: Txn -> string, step: (Option<V>, Txn) -> V)
    ensures Keys(Fold(s, keyOf, step)) == FirstKeys(s, keyOf)
  {
    if s != [] {
      FoldFirstKeys(s[..|s| - 1], keyOf, step);
    }
  }

  /** Every transaction's key is among the first keys. */
  lemma {:induction false} FirstKeyOf(s: seq<Txn>, keyOf: Txn -> string, p: nat)
    requires p < |s|
    ensures keyOf(s[p]) in FirstKeys(s, keyOf)
  {
    var n := |s| - 1;
    if p < n {
      assert s[..n][p] == s[p];
      FirstKeyOf(s[..n], keyOf, p);
    }
  }

  /** A transaction that has a given first key. */
  lemma {:induction false} FirstKeyWitness(s: seq<Txn>, keyOf: Txn -> string, k: string) returns (p: nat)
    requires k in FirstKeys(s, keyOf)
    ensures p < |s| && keyOf(s[p]) == k
  {
    var n := |s| - 1;
    if k in FirstKeys(s[..n], keyOf) {
      p := FirstKeyWitness(s[..n], keyOf, k);
      assert s[..n][p] == s[p];
    } else {
      p := n;
    }
  }

  /** Before any transaction with first key `j` there is one with each earlier first key `i`. */
  lemma {:induction false} FirstKeyBefore(s: seq<Txn>, keyOf: Txn -> string, i: nat, j: nat, q: nat) returns (p: nat)
    requires i < j < |FirstKeys(s, keyOf)| && q < |s| && keyOf(s[q]) == FirstKeys(s, keyOf)[j]
    ensures p < q && keyOf(s[p]) == FirstKeys(s, keyOf)[i]
  {
    var n := |s| - 1;
    var s' := s[..n];
    var m := FirstKeys(s', keyOf);
    assert FirstKeys(s, keyOf)[i] == m[i];
    if q < n {
      assert s'[q] == s[q];
      FirstKeyOf(s', keyOf, q);
      assert j < |m|;
      assert FirstKeys(s, keyOf)[j] == m[j];
      p := FirstKeyBefore(s', keyOf, i, j, q);
    } else {
      p := FirstKeyWitness(s', keyOf, m[i]);
    }
    assert s[p] == s'[p];
  }

  /**
   * The keys of a fold extend the keys of the fold of all but the last
   * transaction by that transaction's key, when it is new.
   */
  lemma FoldLastKeys<V>(s: seq<Txn>, keyOf: Txn -> string, step: (Option<V>, Txn) -> V)
    requires s != []
    ensures var m := Fold(s[..|s| - 1], keyOf, step);
            var f := Fold(s, keyOf, step);
            var k := keyOf(s[|s| - 1]);
            && (|f| == |m| || (|f| == |m| + 1 && f[|m|].0 == k && k !in Keys(m)))
            && forall l :: 0 <= l < |m| ==> f[l].0 == m[l].0
  {
    var m := Fold(s[..|s| - 1], keyOf, step);
    var f := Fold(s, keyOf, step);
    assert Keys(f) == if keyOf(s[|s| - 1]) in Keys(m) then Keys(m) else Keys(m) + [keyOf(s[|s| - 1])];
    forall l | 0 <= l < |m| ensures f[l].0 == m[l].0 {
      assert Keys(f)[l] == Keys(m)[l];
    }
    if |f| != |m| {
      assert Keys(f)[|m|] == f[|m|].0;
    }
  }

  /**
   * The keys of a fold over the transactions of type `k` are distinct and
   * are exactly the keys of those transactions.
   */
  lemma FilteredKeys<V>(s: seq<Txn>, k: Kind, keyOf: Txn -> string, step: (Option<V>, Txn) -> V)
    ensures DistinctKeys(Fold(OfKind(s, k), keyOf, step))
    ensures forall c :: c in Keys(Fold(OfKind(s, k), keyOf, step)) <==>
              exists t :: t in s && t.kind == k && keyOf(t) == c
  {
    FoldKeys(OfKind(s, k), keyOf, step);
    forall c ensures HasKey(OfKind(s, k), keyOf, c) <==> exists t :: t in s && t.kind == k && keyOf(t) == c {
      KeyOfKind(s, k, keyOf, c);
    }
  }

  lemma KeyOfKind(s: seq<Txn>, k: Kind, keyOf: Txn -> string, c: string)
    ensures HasKey(OfKind(s, k), keyOf, c) <==> exists t :: t in s && t.kind == k && keyOf(t) == c
  {
    var f := OfKind(s, k);
    OfKindMembers(s, k);
    if HasKey(f, keyOf, c) {
      var i :| 0 <= i < |f| && keyOf(f[i]) == c;
      assert f[i] in f;
    }
    if exists t :: t in s && t.kind == k && keyOf(t) == c {
      var t :| t in s && t.kind == k && keyOf(t) == c;
      var i :| 0 <= i < |f| && f[i] == t;
    }
  }

  /** The first key of a non-empty fold is the key of its first transaction. */
  lemma {:induction false} FoldFirstKey<V>(s: seq<Txn>, keyOf: Txn -> string, step: (Option<V>, Txn) -> V)
    requires s != []
    ensures |Fold(s, keyOf, step)| > 0 && Fold(s, keyOf, step)[0].0 == keyOf(s[0])
  {
    var n := |s| - 1;
    if n == 0 {
      assert Fold(s[..n], keyOf, step) == [];
    } else {
      FoldFirstKey(s[..n], keyOf, step);
      var m := Fold(s[..n], keyOf, step);
      assert Keys(m)[0] == m[0].0;
      assert Keys(Fold(s, keyOf, step))[0] == Keys(m)[0];
    }
  }

  /**
   * The accumulation `acc[k] ? acc[k] + a : a` (and its variant
   * `if (!acc[k]) acc[k] = 0; acc[k] += a`): a falsy entry, `0` or `NaN`,
   * restarts from the new amount.
   */
  function Accumulate(prev: Option<Num>, a: Num): Num {
    match prev
    case None => a
    case Some(v) => if Truthy(v) then Plus(v, a) else a
  }

  function AccumulateBy(amountOf: Txn -> Num): (Option<Num>, Txn) -> Num {
    (prev: Option<Num>, t: Txn) => Accumulate(prev, amountOf(t))
  }

  /** The per-key amount totals built with `Accumulate`. */
  function Tally(s: seq<Txn>, keyOf: Txn -> string, amountOf: Txn -> Num): Dict<Num> {
    Fold(s, keyOf, AccumulateBy(amountOf))
  }

  /** The amount of `t` if its key is `k`, else 0. */
  function OnlyKey(keyOf: Txn -> string, amountOf: Txn -> Num, k: string): Txn -> Num {
    t => if keyOf(t) == k then amountOf(t) else Num(0)
  }

  /** Every transaction's amount is a number. */
  ghost predicate AllDefined(s: seq<Txn>, amountOf: Txn -> Num) {
    forall i :: 0 <= i < |s| ==> amountOf(s[i]).Num?
  }

  /** When every transaction of type `k` has an amount, so does every transaction of `OfKind(s, k)`. */
  lemma KindAmountsDefined(s: seq<Txn>, k: Kind)
    requires AmountsDefined(s, k)
    ensures AllDefined(OfKind(s, k), Raw)
  {
    var f := OfKind(s, k);
    OfKindMembers(s, k);
    forall i | 0 <= i < |f| ensures Raw(f[i]).Num? {
      assert f[i] in f;
      var j :| 0 <= j < |s| && s[j] == f[i];
    }
  }

  function EntryNum(e: (string, Num)): Num {
    e.1
  }

  /** One step of `Tally`: the last transaction updates the tally of the others. */
  lemma TallyLast(s: seq<Txn>, keyOf: Txn -> string, amountOf: Txn -> Num)
    requires s != []
    ensures var m := Tally(s[..|s| - 1], keyOf, amountOf);
            var t := s[|s| - 1];
            Tally(s, keyOf, amountOf) == Put(m, keyOf(t), Accumulate(Lookup(m, keyOf(t)), amountOf(t)))
  {
  }

  /**
   * When every amount is a number, the entry of each key is the sum of the
   * amounts of the transactions with that key.
   */
  lemma {:induction false} TallyPerKey(s: seq<Txn>, keyOf: Txn -> string, amountOf: Txn -> Num, k: string)
    requires AllDefined(s, amountOf) && HasKey(s, keyOf, k)
    ensures Lookup(Tally(s, keyOf, amountOf), k) == Some(SumOf(s, OnlyKey(keyOf, amountOf, k)))
  {
    var n := |s| - 1;
    var s' := s[..n];
    var t := s[n];
    var kt := keyOf(t);
    var m := Tally(s', keyOf, amountOf);
    var only := OnlyKey(keyOf, amountOf, k);
    var before := SumOf(s', only);
    assert AllDefined(s', amountOf) by {
      assert forall i :: 0 <= i < |s'| ==> s'[i] == s[i];
    }
    TallyLast(s, keyOf, amountOf);
    SumOfLast(s, only);
    OnlyKeyDefined(s', keyOf, amountOf, k);
    if kt == k {
      assert Lookup(m, k) == Some(before) || (Lookup(m, k) == None && before == Num(0)) by {
        if HasKey(s', keyOf, k) {
          TallyPerKey(s', keyOf, amountOf, k);
        } else {
          OnlyKeyAbsent(s', keyOf, amountOf, k);
          FoldKeys(s', keyOf, AccumulateBy(amountOf));
        }
      }
      AccumulateEntry(m, k, before, amountOf(t));
      assert only(t) == amountOf(t);
    } else {
      HasKeyPrefix(s, keyOf, k);
      TallyPerKey(s', keyOf, amountOf, k);
      PutOther(m, kt, Accumulate(Lookup(m, kt), amountOf(t)), k);
      assert only(t) == Num(0);
      assert Plus(before, Num(0)) == before;
    }
  }

  /** A key the last transaction does not have occurs among the others. */
  lemma HasKeyPrefix(s: seq<Txn>, keyOf: Txn -> string, k: string)
    requires HasKey(s, keyOf, k) && keyOf(s[|s| - 1]) != k
    ensures HasKey(s[..|s| - 1], keyOf, k)
  {
    var i :| 0 <= i < |s| && keyOf(s[i]) == k;
    assert s[..|s| - 1][i] == s[i];
  }

  /** When every amount is a number, so is the total of any one key. */
  lemma OnlyKeyDefined(s: seq<Txn>, keyOf: Txn -> string, amountOf: Txn -> Num, k: string)
    requires AllDefined(s, amountOf)
    ensures SumOf(s, OnlyKey(keyOf, amountOf, k)).Num?
  {
    var only := OnlyKey(keyOf, amountOf, k);
    assert forall i :: 0 <= i < |s| ==> only(s[i]).Num? by {
      forall i | 0 <= i < |s| ensures only(s[i]).Num? {
        assert amountOf(s[i]).Num?;
      }
    }
    SumOfDefined(s, only);
  }

  /** The total of a key no transaction has is 0. */
  lemma OnlyKeyAbsent(s: seq<Txn>, keyOf: Txn -> string, amountOf: Txn -> Num, k: string)
    requires !HasKey(s, keyOf, k)
    ensures SumOf(s, OnlyKey(keyOf, amountOf, k)) == Num(0)
  {
    var only := OnlyKey(keyOf, amountOf, k);
    assert forall i :: 0 <= i < |s| ==> only(s[i]) == Num(0) by {
      forall i | 0 <= i < |s| ensures only(s[i]) == Num(0) {
        assert keyOf(s[i]) != k;
      }
    }
    SumOfZeros(s, only);
  }

  /**
   * Accumulating a number into an entry holding the number `before` (or into
   * an absent entry, when `before` is 0) leaves `before + a`: a falsy `0`
   * entry restarting from `a` gives the same result.
   */
  lemma AccumulateEntry(m: Dict<Num>, k: string, before: Num, a: Num)
    requires before.Num? && a.Num?
    requires Lookup(m, k) == Some(before) || (Lookup(m, k) == None && before == Num(0))
    ensures Lookup(Put(m, k, Accumulate(Lookup(m, k), a)), k) == Some(Plus(before, a))
  {
  }

  /** `(acc[k] || 0) + a`, and equally `if (!acc[k]) acc[k] = 0; acc[k] += a`. */
  function OrZeroPlus(prev: Option<Num>, a: Num): Num {
    Plus(if prev.Some? && Truthy(prev.value) then prev.value else Num(0), a)
  }

  /**
   * Restarting a falsy entry from 0 and restarting it from the new amount
   * agree on every input but `undefined`, which only the first turns into
   * `NaN`.
   */
  lemma OrZeroPlusIsAccumulate(prev: Option<Num>, a: Num)
    ensures OrZeroPlus(prev, a) == Accumulate(prev, AsNumber(a))
    ensures !a.Undefined? ==> OrZeroPlus(prev, a) == Accumulate(prev, a)
  {
  }

  /** Folds whose steps agree on every input are equal. */
  lemma {:induction false} FoldSameStep<V>(s: seq<Txn>, keyOf: Txn -> string,
                                           f: (Option<V>, Txn) -> V, g: (Option<V>, Txn) -> V)
    requires forall p, t :: f(p, t) == g(p, t)
    ensures Fold(s, keyOf, f) == Fold(s, keyOf, g)
  {
    if s != [] {
      var t := s[|s| - 1];
      FoldSameStep(s[..|s| - 1], keyOf, f, g);
      var m := Fold(s[..|s| - 1], keyOf, f);
      assert f(Lookup(m, keyOf(t)), t) == g(Lookup(m, keyOf(t)), t);
    }
  }

  /**
   * When every amount is a number, every entry is a number and the entries
   * add up to the sum of all amounts.
   */
  lemma {:induction false} TallyConserves(s: seq<Txn>, keyOf: Txn -> string, amountOf: Txn -> Num)
    requires AllDefined(s, amountOf)
    ensures forall i :: 0 <= i < |Tally(s, keyOf, amountOf)| ==> Tally(s, keyOf, amountOf)[i].1.Num?
    ensures SumOf(Tally(s, keyOf, amountOf), EntryNum) == SumOf(s, amountOf)
  {
    if s != [] {
      var n := |s| - 1;
      var s' := s[..n];
      var t := s[n];
      assert AllDefined(s', amountOf) by {
        assert forall i :: 0 <= i < |s'| ==> s'[i] == s[i];
      }
      TallyConserves(s', keyOf, amountOf);
      TallyLast(s, keyOf, amountOf);
      SumOfLast(s, amountOf);
      PutAccumulateSum(Tally(s', keyOf, amountOf), keyOf(t), amountOf(t));
    }
  }

  /** Accumulating a number into one entry raises the sum of a dictionary of numbers by that number. */
  lemma PutAccumulateSum(m: Dict<Num>, k: string, a: Num)
    requires a.Num? && forall i :: 0 <= i < |m| ==> m[i].1.Num?
    ensures var r := Put(m, k, Accumulate(Lookup(m, k), a));
            && (forall i :: 0 <= i < |r| ==> r[i].1.Num?)
            && SumOf(r, EntryNum) == Plus(SumOf(m, EntryNum), a)
  {
    match IndexOf(m, k)
    case Some(i) =>
      var v := Accumulate(Some(m[i].1), a);
      assert Lookup(m, k) == Some(m[i].1);
      assert Put(m, k, v) == m[i := (k, v)];
      UpdateEntrySum(m, i, v, a, m[i := (k, v)]);
    case None =>
      assert Put(m, k, a) == m + [(k, a)];
      AppendEntrySum(m, k, a, m + [(k, a)]);
  }

  lemma UpdateEntrySum(m: Dict<Num>, i: nat, v: Num, a: Num, r: Dict<Num>)
    requires i < |m| && a.Num? && forall j :: 0 <= j < |m| ==> m[j].1.Num?
    requires v == Accumulate(Some(m[i].1), a) && r == m[i := (m[i].0, v)]
    ensures forall j :: 0 <= j < |r| ==> r[j].1.Num?
    ensures SumOf(r, EntryNum) == Plus(SumOf(m, EntryNum), a)
  {
    assert v == Plus(m[i].1, a) by {
      assert m[i].1.Num?;
    }
    SumOfUpdate(m, i, (m[i].0, v), a, EntryNum);
  }

  lemma AppendEntrySum(m: Dict<Num>, k: string, a: Num, r: Dict<Num>)
    requires a.Num? && forall j :: 0 <= j < |m| ==> m[j].1.Num?
    requires r == m + [(k, a)]
    ensures forall j :: 0 <= j < |r| ==> r[j].1.Num?
    ensures SumOf(r, EntryNum) == Plus(SumOf(m, EntryNum), a)
  {
    assert r[..|m|] == m;
  }
}
