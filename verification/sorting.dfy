/**
 * The one ordering the tracker uses everywhere: descending by a numeric key,
 * as `array.sort((a, b) => key(b) - key(a))` does (a stable sort since
 * ES2019), and as a database sort on a field in descending order does.
 * A key that is not a number ranks below every number; for the JavaScript
 * comparator that case is implementation-defined, so this is one of the
 * permitted orders.
 */
module Sorting {
  import opened Numbers

  /** `a` may stand before `b` in a descending order. */
  predicate Ge(a: Num, b: Num) {
    !b.Num? || (a.Num? && a.v >= b.v)
  }

  /** `s` is in non-increasing order of `key`. */
  ghost predicate SortedDesc<T>(s: seq<T>, key: T -> Num) {
    forall i, j :: 0 <= i < j < |s| ==> Ge(key(s[i]), key(s[j]))
  }

  /** Places `x` before the first element it is not smaller than. */
  function Insert<T>(x: T, s: seq<T>, key: T -> Num): (r: seq<T>)
    requires SortedDesc(s, key)
    ensures multiset(r) == multiset(s) + multiset{x}
    ensures SortedDesc(r, key)
  {
    if s == [] || Ge(key(x), key(s[0])) then
      [x] + s
    else
      var rest := Insert(x, s[1..], key);
      assert s == [s[0]] + s[1..];
      HeadDominates(x, s, key, rest);
      ConsSorted(s[0], rest, key);
      [s[0]] + rest
  }

  /** The head of a sorted sequence is at least every later element, and at least an `x` it beats. */
  lemma HeadDominates<T>(x: T, s: seq<T>, key: T -> Num, rest: seq<T>)
    requires SortedDesc(s, key) && s != [] && !Ge(key(x), key(s[0]))
    requires multiset(rest) == multiset(s[1..]) + multiset{x}
    ensures forall y :: y in rest ==> Ge(key(s[0]), key(y))
  {
    forall y | y in rest ensures Ge(key(s[0]), key(y)) {
      assert y in multiset(rest);
      if y != x {
        assert y in multiset(s[1..]);
        var j :| 0 <= j < |s[1..]| && s[1..][j] == y;
        assert s[j + 1] == y;
      }
    }
  }

  /** An element at least every element of a sorted sequence can go in front of it. */
  lemma ConsSorted<T>(h: T, rest: seq<T>, key: T -> Num)
    requires SortedDesc(rest, key) && forall y :: y in rest ==> Ge(key(h), key(y))
    ensures SortedDesc([h] + rest, key)
  {
    var r := [h] + rest;
    forall i, j | 0 <= i < j < |r| ensures Ge(key(r[i]), key(r[j])) {
      assert r[j] == rest[j - 1];
      if i > 0 {
        assert r[i] == rest[i - 1];
      } else {
        assert rest[j - 1] in rest;
      }
    }
  }

  /** Stable insertion sort, descending by `key`. */
  function SortDesc<T>(s: seq<T>, key: T -> Num): (r: seq<T>)
    ensures multiset(r) == multiset(s)
    ensures |r| == |s|
    ensures SortedDesc(r, key)
  {
    if s == [] then []
    else
      assert s == [s[0]] + s[1..];
      var r := Insert(s[0], SortDesc(s[1..], key), key);
      assert |r| == |multiset(r)| == |multiset(s)| == |s|;
      r
  }

  /** `a` and `b` rank equal: each may stand before the other. */
  predicate Tied(a: Num, b: Num) {
    Ge(a, b) && Ge(b, a)
  }

  /** The elements of `s` whose key ranks equal to `v`, in their order in `s`. */
  function TiedWith<T>(s: seq<T>, key: T -> Num, v: Num): seq<T> {
    if s == [] then [] else (if Tied(key(s[0]), v) then [s[0]] else []) + TiedWith(s[1..], key, v)
  }

  /** Splitting off the head of `TiedWith`'s argument. */
  lemma TiedCons<T>(h: T, r: seq<T>, key: T -> Num, v: Num)
    ensures TiedWith([h] + r, key, v) == (if Tied(key(h), v) then [h] else []) + TiedWith(r, key, v)
  {
    assert ([h] + r)[1..] == r;
  }

  /** Two keys of the same rank as `v` may stand in either order. */
  lemma TiedSameRank(a: Num, b: Num, v: Num)
    requires Tied(a, v) && Tied(b, v)
    ensures Ge(a, b)
  {
  }

  /** Inserting `x` puts it in front of every element of its own rank. */
  lemma {:induction false} InsertTied<T>(x: T, s: seq<T>, key: T -> Num, v: Num)
    requires SortedDesc(s, key)
    ensures TiedWith(Insert(x, s, key), key, v) == (if Tied(key(x), v) then [x] else []) + TiedWith(s, key, v)
    decreases |s|
  {
    if s == [] || Ge(key(x), key(s[0])) {
      assert Insert(x, s, key) == [x] + s;
      TiedCons(x, s, key, v);
    } else {
      var h, t := s[0], s[1..];
      assert s == [h] + t;
      assert SortedDesc(t, key) by {
        forall i, j | 0 <= i < j < |t| ensures Ge(key(t[i]), key(t[j])) {
          assert t[i] == s[i + 1] && t[j] == s[j + 1];
        }
      }
      var rest := Insert(x, t, key);
      assert Insert(x, s, key) == [h] + rest;
      InsertTied(x, t, key, v);
      TiedCons(h, rest, key, v);
      TiedCons(h, t, key, v);
      if Tied(key(x), v) && Tied(key(h), v) {
        TiedSameRank(key(x), key(h), v);
        assert false;
      }
    }
  }

  /**
   * The sort is stable: for every rank, the elements of that rank come out
   * in the order they went in.
   */
  lemma {:induction false} SortStable<T>(s: seq<T>, key: T -> Num, v: Num)
    ensures TiedWith(SortDesc(s, key), key, v) == TiedWith(s, key, v)
  {
    if s != [] {
      SortStable(s[1..], key, v);
      InsertTied(s[0], SortDesc(s[1..], key), key, v);
    }
  }

  /** Sorting keeps every sum over the elements. */
  lemma SortKeepsSum<T>(s: seq<T>, key: T -> Num, f: T -> Num)
    ensures SumOf(SortDesc(s, key), f) == SumOf(s, f)
  {
    SumOfPermutation(SortDesc(s, key), s, f);
  }

  /** `s.slice(0, n)`. */
  function Take<T>(s: seq<T>, n: nat): (r: seq<T>)
    ensures |r| == if |s| < n then |s| else n
    ensures r == s[..|r|]
  {
    if |s| <= n then s else s[..n]
  }

  /** `s.slice(-n)`: the last `n` elements, or all of them when there are fewer. */
  function TakeLast<T>(s: seq<T>, n: nat): (r: seq<T>)
    ensures |r| == if |s| < n then |s| else n
    ensures r == s[|s| - |r|..]
  {
    if |s| <= n then s else s[|s| - n..]
  }

  /** `s.reverse()`. */
  function Reverse<T>(s: seq<T>): (r: seq<T>)
    ensures |r| == |s| && forall i :: 0 <= i < |s| ==> r[i] == s[|s| - 1 - i]
  {
    seq(|s|, i requires 0 <= i < |s| => s[|s| - 1 - i])
  }

  /** Element `a` of the reversed first `n` elements of `v`. */
  lemma ReverseTakeIndex<T>(v: seq<T>, n: nat, a: nat)
    requires a < |Reverse(Take(v, n))|
    ensures |Reverse(Take(v, n))| <= |v|
    ensures Reverse(Take(v, n))[a] == v[|Reverse(Take(v, n))| - 1 - a]
  {
  }

  /** In a descending sequence, every element of a prefix ranks at least as high as every later one. */
  lemma PrefixDominates<T>(sorted: seq<T>, k: nat, key: T -> Num)
    requires SortedDesc(sorted, key) && k <= |sorted|
    ensures forall i, x :: 0 <= i < k && x in multiset(sorted[k..]) ==> Ge(key(sorted[i]), key(x))
  {
    forall i, x | 0 <= i < k && x in multiset(sorted[k..])
      ensures Ge(key(sorted[i]), key(x))
    {
      assert x in sorted[k..];
      var j :| 0 <= j < |sorted[k..]| && sorted[k..][j] == x;
      assert sorted[k + j] == x;
    }
  }

  /**
   * The `n` first elements of the descending order are a top-`n` selection:
   * they come from `s`, keep the order, and no element left out ranks above
   * any element kept.
   */
  function TopN<T>(s: seq<T>, key: T -> Num, n: nat): (r: seq<T>)
    ensures |r| == if |s| < n then |s| else n
    ensures SortedDesc(r, key)
    ensures multiset(r) <= multiset(s)
    ensures forall i, x :: 0 <= i < |r| && x in multiset(s) - multiset(r) ==> Ge(key(r[i]), key(x))
  {
    var sorted := SortDesc(s, key);
    var r := Take(sorted, n);
    PrefixSelects(s, sorted, |r|, key);
    r
  }

  /** A prefix of a descending permutation of `s` is a top selection of `s`. */
  lemma PrefixSelects<T>(s: seq<T>, sorted: seq<T>, k: nat, key: T -> Num)
    requires SortedDesc(sorted, key) && multiset(sorted) == multiset(s) && k <= |sorted|
    ensures SortedDesc(sorted[..k], key)
    ensures multiset(sorted[..k]) <= multiset(s)
    ensures forall i, x :: 0 <= i < k && x in multiset(s) - multiset(sorted[..k]) ==> Ge(key(sorted[..k][i]), key(x))
  {
    var r := sorted[..k];
    assert sorted == r + sorted[k..];
    assert multiset(s) - multiset(r) == multiset(sorted[k..]) by {
      assert multiset(sorted) == multiset(r) + multiset(sorted[k..]);
    }
    PrefixDominates(sorted, k, key);
  }
}
