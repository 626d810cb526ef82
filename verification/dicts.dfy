/**
 * A JavaScript plain object used as a dictionary with string keys: entries
 * keep insertion order (what `Object.keys`, `Object.values` and
 * `Object.entries` return), assigning to an existing key updates it in place,
 * and assigning to a new key appends it.
 */
module Dicts {
  import opened Wrappers

  type Dict<V> = seq<(string, V)>

  function Keys<V>(m: Dict<V>): (r: seq<string>)
    ensures |r| == |m| && forall i :: 0 <= i < |m| ==> r[i] == m[i].0
  {
    seq(|m|, i requires 0 <= i < |m| => m[i].0)
  }

  function Values<V>(m: Dict<V>): (r: seq<V>)
    ensures |r| == |m| && forall i :: 0 <= i < |m| ==> r[i] == m[i].1
  {
    seq(|m|, i requires 0 <= i < |m| => m[i].1)
  }

  /** No key occurs twice, as in any JavaScript object. */
  ghost predicate DistinctKeys<V>(m: Dict<V>) {
    forall i, j :: 0 <= i < j < |m| ==> m[i].0 != m[j].0
  }

  /** The position of the first entry with key `k`. */
  function IndexOf<V>(m: Dict<V>, k: string): (r: Option<nat>)
    ensures r.Some? <==> k in Keys(m)
    ensures r.Some? ==> r.value < |m| && m[r.value].0 == k
                        && forall j :: 0 <= j < r.value ==> m[j].0 != k
  {
    if m == [] then None
    else if m[0].0 == k then Some(0)
    else
      match IndexOf(m[1..], k)
      case None =>
        assert Keys(m) == [m[0].0] + Keys(m[1..]);
        None
      case Some(i) =>
        assert Keys(m) == [m[0].0] + Keys(m[1..]);
        Some(i + 1)
  }

  /** `obj[k]`, with `None` for a key that is not present. */
  function Lookup<V>(m: Dict<V>, k: string): (r: Option<V>)
    ensures r.Some? <==> k in Keys(m)
    ensures r.Some? ==> (k, r.value) in m
  {
    match IndexOf(m, k)
    case Some(i) => Some(m[i].1)
    case None => None
  }

  /** With distinct keys, an entry is found by looking its key up. */
  lemma LookupEntry<V>(m: Dict<V>, i: nat)
    requires DistinctKeys(m) && i < |m|
    ensures Lookup(m, m[i].0) == Some(m[i].1)
  {
    assert m[i].0 in Keys(m);
  }

  /** `obj[k] = v`. */
  function Put<V>(m: Dict<V>, k: string, v: V): (r: Dict<V>)
    ensures Lookup(r, k) == Some(v)
    ensures Keys(r) == if k in Keys(m) then Keys(m) else Keys(m) + [k]
    ensures DistinctKeys(m) ==> DistinctKeys(r)
  {
    match IndexOf(m, k)
    case Some(i) =>
      var r := m[i := (k, v)];
      assert Keys(r) == Keys(m);
      assert IndexOf(r, k) == Some(i);
      r
    case None =>
      var r := m + [(k, v)];
      assert Keys(r) == Keys(m) + [k];
      assert IndexOf(r, k) == Some(|m|);
      r
  }

  /** `obj[k] = v` leaves every other key as it was. */
  lemma PutOther<V>(m: Dict<V>, k: string, v: V, k': string)
    requires k' != k
    ensures Lookup(Put(m, k, v), k') == Lookup(m, k')
  {
    match IndexOf(m, k)
    case Some(i) =>
      PutPreservesIndex(m, i, v, k');
    case None =>
      AppendPreservesIndex(m, (k, v), k');
  }

  /** The first position holding key `k` is what `IndexOf` finds. */
  lemma IndexOfFirst<V>(m: Dict<V>, k: string, j: nat)
    requires j < |m| && m[j].0 == k && forall l :: 0 <= l < j ==> m[l].0 != k
    ensures IndexOf(m, k) == Some(j)
  {
    assert Keys(m)[j] == k;
  }

  lemma PutPreservesIndex<V>(m: Dict<V>, i: nat, v: V, k': string)
    requires i < |m| && m[i].0 != k'
    ensures IndexOf(m[i := (m[i].0, v)], k') == IndexOf(m, k')
  {
    var r := m[i := (m[i].0, v)];
    assert Keys(r) == Keys(m);
    if k' in Keys(m) {
      var j := IndexOf(m, k').value;
      IndexOfFirst(r, k', j);
    }
  }

  lemma AppendPreservesIndex<V>(m: Dict<V>, e: (string, V), k': string)
    requires e.0 != k'
    ensures IndexOf(m + [e], k') == IndexOf(m, k')
  {
    var r := m + [e];
    assert Keys(r) == Keys(m) + [e.0];
    if k' in Keys(m) {
      var j := IndexOf(m, k').value;
      IndexOfFirst(r, k', j);
    }
  }
}
