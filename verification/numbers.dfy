/**
 * JavaScript numbers as the tracker uses them: money amounts are whole minor
 * units, and an arithmetic step that meets a missing (`undefined`) amount
 * yields `NaN`, which then absorbs every later addition. `undefined` itself
 * is kept apart from `NaN` because it can be stored as it is, and calling a
 * number method on it throws.
 */
module Numbers {

  /** A value in number position: a whole amount of minor units, `NaN`, or `undefined`. */
  datatype Num = Num(v: int) | NaN | Undefined

  /** `a + b`: `NaN` as soon as either side is not a number. */
  function Plus(a: Num, b: Num): (r: Num)
    ensures !r.Undefined?
    ensures r.Num? <==> a.Num? && b.Num?
    ensures r.Num? ==> r.v == a.v + b.v
  {
    if a.Num? && b.Num? then Num(a.v + b.v) else NaN
  }

  /** `a - b`. */
  function Minus(a: Num, b: Num): Num {
    if a.Num? && b.Num? then Num(a.v - b.v) else NaN
  }

  /** `0 + a`: `undefined` becomes `NaN`, a number stays itself. */
  function AsNumber(a: Num): (r: Num)
    ensures !r.Undefined?
    ensures r.Num? <==> a.Num?
    ensures Plus(Num(0), a) == r
    ensures forall b :: Plus(b, a) == Plus(b, r)
  {
    if a.Undefined? then NaN else a
  }

  /** JavaScript truthiness: `0`, `NaN` and `undefined` are falsy. */
  predicate Truthy(n: Num) {
    n.Num? && n.v != 0
  }

  /** `xs.reduce((sum, x) => sum + f(x), 0)`: a left-to-right sum. */
  function SumOf<T>(s: seq<T>, f: T -> Num): (r: Num)
    ensures !r.Undefined?
  {
    if s == [] then Num(0) else Plus(SumOf(s[..|s| - 1], f), f(s[|s| - 1]))
  }

  /** One step of `SumOf`: the last summand is added to the sum of the others. */
  lemma SumOfLast<T>(s: seq<T>, f: T -> Num)
    requires s != []
    ensures SumOf(s, f) == Plus(SumOf(s[..|s| - 1], f), f(s[|s| - 1]))
  {
  }

  /** A sum is a number exactly when every summand is; one `NaN` poisons it. */
  lemma {:induction false} SumOfDefined<T>(s: seq<T>, f: T -> Num)
    ensures SumOf(s, f).Num? <==> forall i :: 0 <= i < |s| ==> f(s[i]).Num?
  {
    if s != [] {
      SumOfDefined(s[..|s| - 1], f);
      assert forall i :: 0 <= i < |s| - 1 ==> s[..|s| - 1][i] == s[i];
    }
  }

  /** Summing a concatenation adds the two sums. */
  lemma {:induction false} SumOfConcat<T>(a: seq<T>, b: seq<T>, f: T -> Num)
    ensures SumOf(a + b, f) == Plus(SumOf(a, f), SumOf(b, f))
  {
    if b == [] {
      assert a + b == a;
      if SumOf(a, f).Num? {
      }
    } else {
      assert (a + b)[..|a + b| - 1] == a + b[..|b| - 1];
      SumOfConcat(a, b[..|b| - 1], f);
    }
  }

  /** Summands that are all zero sum to zero. */
  lemma {:induction false} SumOfZeros<T>(s: seq<T>, f: T -> Num)
    requires forall i :: 0 <= i < |s| ==> f(s[i]) == Num(0)
    ensures SumOf(s, f) == Num(0)
  {
    if s != [] {
      assert forall i :: 0 <= i < |s| - 1 ==> s[..|s| - 1][i] == s[i];
      SumOfZeros(s[..|s| - 1], f);
    }
  }

  /** Raising one summand by `a` raises the sum by `a`. */
  lemma {:induction false} SumOfUpdate<T>(s: seq<T>, i: nat, x: T, a: Num, f: T -> Num)
    requires i < |s| && f(x) == Plus(f(s[i]), a)
    ensures SumOf(s[i := x], f) == Plus(SumOf(s, f), a)
  {
    var n := |s| - 1;
    if i == n {
      assert s[i := x][..n] == s[..n];
    } else {
      assert s[i := x][..n] == s[..n][i := x];
      SumOfUpdate(s[..n], i, x, a, f);
    }
  }

  /** Taking one summand out of a sum and adding it back gives the same sum. */
  lemma {:induction false} SumOfRemove<T>(b: seq<T>, i: nat, f: T -> Num)
    requires i < |b|
    ensures SumOf(b, f) == Plus(SumOf(b[..i] + b[i + 1..], f), f(b[i]))
  {
    assert b == (b[..i] + [b[i]]) + b[i + 1..];
    SumOfConcat(b[..i] + [b[i]], b[i + 1..], f);
    SumOfConcat(b[..i], [b[i]], f);
    SumOfConcat(b[..i], b[i + 1..], f);
    assert [b[i]][..0] == [];
  }

  /** The sum does not depend on the order of the summands. */
  lemma {:induction false} SumOfPermutation<T>(a: seq<T>, b: seq<T>, f: T -> Num)
    requires multiset(a) == multiset(b)
    ensures SumOf(a, f) == SumOf(b, f)
    decreases |a|
  {
    if a == [] {
      assert |b| == |multiset(b)| == 0;
    } else {
      var n := |a| - 1;
      var x := a[n];
      assert a == a[..n] + [x];
      assert x in multiset(b);
      var i :| 0 <= i < |b| && b[i] == x;
      var b' := b[..i] + b[i + 1..];
      assert multiset(a[..n]) == multiset(b') by {
        assert b == b[..i] + [x] + b[i + 1..];
        assert multiset(b) == multiset(b[..i]) + multiset{x} + multiset(b[i + 1..]);
        assert multiset(b') == multiset(b[..i]) + multiset(b[i + 1..]);
        assert multiset(a) == multiset(a[..n]) + multiset{x};
        assert multiset(a[..n]) + multiset{x} == multiset(b') + multiset{x};
        assert forall y :: multiset(a[..n])[y] == multiset(b')[y] by {
          forall y ensures multiset(a[..n])[y] == multiset(b')[y] {
            assert (multiset(a[..n]) + multiset{x})[y] == (multiset(b') + multiset{x})[y];
          }
        }
      }
      SumOfPermutation(a[..n], b', f);
      SumOfRemove(b, i, f);
    }
  }

  /** Summands that agree once `undefined` is read as `NaN` give the same sum. */
  lemma {:induction false} SumOfSameNumbers<T>(s: seq<T>, f: T -> Num, g: T -> Num)
    requires forall i :: 0 <= i < |s| ==> AsNumber(f(s[i])) == AsNumber(g(s[i]))
    ensures SumOf(s, f) == SumOf(s, g)
  {
    if s != [] {
      var n := |s| - 1;
      assert forall i :: 0 <= i < n ==> s[..n][i] == s[i];
      SumOfSameNumbers(s[..n], f, g);
      var x := SumOf(s[..n], f);
      assert Plus(x, f(s[n])) == Plus(x, AsNumber(f(s[n])));
      assert Plus(x, g(s[n])) == Plus(x, AsNumber(g(s[n])));
    }
  }
}
