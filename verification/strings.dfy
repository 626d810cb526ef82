/**
 * The handful of JavaScript string operations the finance tracker relies on:
 * `trim`, ASCII `toLowerCase`, `includes`, `startsWith`/`endsWith`, a global
 * single-character `replace`, and anchored suffix replacement.
 */
module Strings {

  /** The characters `String.prototype.trim` removes: WhiteSpace and LineTerminator. */
  predicate IsJsSpace(c: char) {
    || c == '\t' || c == '\n' || c == '\U{B}' || c == '\U{C}' || c == '\r' || c == ' '
    || c == '\U{A0}' || c == '\U{1680}' || ('\U{2000}' <= c <= '\U{200A}')
    || c == '\U{2028}' || c == '\U{2029}' || c == '\U{202F}' || c == '\U{205F}'
    || c == '\U{3000}' || c == '\U{FEFF}'
  }

  /** The characters a regular-expression `.` does not match. */
  predicate IsLineTerminator(c: char) {
    c == '\n' || c == '\r' || c == '\U{2028}' || c == '\U{2029}'
  }

  /** Every character of `s` at a position in `lo..hi` is white space. */
  ghost predicate BlankBetween(s: string, lo: int, hi: int) {
    forall i :: lo <= i < hi && 0 <= i < |s| ==> IsJsSpace(s[i])
  }

  /** True iff every character of `s` is white space (the empty string included). */
  ghost predicate IsBlank(s: string) {
    BlankBetween(s, 0, |s|)
  }

  /** The number of white-space characters `s` starts with. */
  function LeadingSpace(s: string): (n: nat)
    ensures n <= |s| && BlankBetween(s, 0, n)
    ensures n == |s| || !IsJsSpace(s[n])
  {
    if s == [] || !IsJsSpace(s[0]) then 0
    else
      var k := LeadingSpace(s[1..]);
      assert forall i :: 1 <= i < k + 1 ==> s[i] == s[1..][i - 1];
      k + 1
  }

  /** The length of `s` without the white space it ends with. */
  function TrailingEnd(s: string): (n: nat)
    ensures n <= |s| && BlankBetween(s, n, |s|)
    ensures n == 0 || !IsJsSpace(s[n - 1])
  {
    if s == [] || !IsJsSpace(s[|s| - 1]) then |s|
    else TrailingEnd(s[..|s| - 1])
  }

  /** `s.trimStart()`: `s` with its leading white space removed. */
  function TrimStart(s: string): (r: string)
    ensures r == s[LeadingSpace(s)..]
    ensures r == [] || !IsJsSpace(r[0])
  {
    s[LeadingSpace(s)..]
  }

  /** `s.trimEnd()`: `s` with its trailing white space removed. */
  function TrimEnd(s: string): (r: string)
    ensures r == s[..TrailingEnd(s)]
    ensures r == [] || !IsJsSpace(r[|r| - 1])
  {
    s[..TrailingEnd(s)]
  }

  /**
   * `s.trim()`: the slice of `s` that starts after its leading white space
   * and ends before its trailing white space; it is empty exactly when `s`
   * is all white space.
   */
  function Trim(s: string): (r: string)
    ensures var a := LeadingSpace(s);
            && a + |r| <= |s| && r == s[a..a + |r|]
            && BlankBetween(s, 0, a) && BlankBetween(s, a + |r|, |s|)
    ensures r == [] || (!IsJsSpace(r[0]) && !IsJsSpace(r[|r| - 1]))
    ensures r == [] <==> IsBlank(s)
  {
    var a := LeadingSpace(s);
    var u := s[a..];
    var e := TrailingEnd(u);
    assert BlankBetween(s, a + e, |s|) by {
      assert forall i :: a + e <= i < |s| ==> s[i] == u[i - a];
    }
    assert e == 0 <==> IsBlank(s) by {
      TrimEmpty(s);
    }
    assert u[..e] == s[a..a + e];
    assert e > 0 ==> u[..e][0] == s[a] && u[..e][e - 1] == u[e - 1];
    u[..e]
  }

  lemma TrimEmpty(s: string)
    ensures TrailingEnd(s[LeadingSpace(s)..]) == 0 <==> IsBlank(s)
  {
    var a := LeadingSpace(s);
    var u := s[a..];
    if a < |s| {
      assert u[0] == s[a];
    }
  }

  /** ASCII lower-casing of one character. */
  function LowerChar(c: char): char {
    if 'A' <= c <= 'Z' then (c as int + 32) as char else c
  }

  /** `s.toLowerCase()` restricted to ASCII letters. */
  function ToLower(s: string): (r: string)
    ensures |r| == |s|
    ensures forall i :: 0 <= i < |s| ==> r[i] == LowerChar(s[i])
  {
    seq(|s|, i requires 0 <= i < |s| => LowerChar(s[i]))
  }

  predicate StartsWith(s: string, prefix: string) {
    |prefix| <= |s| && s[..|prefix|] == prefix
  }

  predicate EndsWith(s: string, suffix: string) {
    |suffix| <= |s| && s[|s| - |suffix|..] == suffix
  }

  /** True iff `needle` occurs in `hay` at position `i`. */
  predicate OccursAt(hay: string, needle: string, i: int) {
    0 <= i && i + |needle| <= |hay| && hay[i..i + |needle|] == needle
  }

  /** `hay.includes(needle)`. */
  function Contains(hay: string, needle: string): (b: bool)
    ensures b <==> exists i :: OccursAt(hay, needle, i)
  {
    ContainsFrom(hay, needle, 0)
  }

  /** `needle` occurs in `hay` at position `k` or later. */
  function ContainsFrom(hay: string, needle: string, k: nat): (b: bool)
    ensures b <==> exists i :: k <= i && OccursAt(hay, needle, i)
    decreases |hay| - k
  {
    if k + |needle| > |hay| then
      assert forall i :: k <= i ==> !OccursAt(hay, needle, i);
      false
    else if OccursAt(hay, needle, k) then true
    else
      var b := ContainsFrom(hay, needle, k + 1);
      assert (exists i :: k <= i && OccursAt(hay, needle, i)) ==> b by {
        if exists i :: k <= i && OccursAt(hay, needle, i) {
          var i :| k <= i && OccursAt(hay, needle, i);
          assert i != k;
        }
      }
      b
  }

  /** `s.replace(/x/g, y)` for a single character `x`. */
  function ReplaceAll(s: string, x: char, y: char): (r: string)
    ensures |r| == |s|
    ensures forall i :: 0 <= i < |s| ==> r[i] == (if s[i] == x then y else s[i])
  {
    seq(|s|, i requires 0 <= i < |s| => if s[i] == x then y else s[i])
  }

  /** `s.replace(/suffix$/, replacement)`: only an occurrence at the very end is replaced. */
  function ReplaceSuffix(s: string, suffix: string, replacement: string): (r: string)
    ensures EndsWith(s, suffix) ==> EndsWith(r, replacement) && r[..|r| - |replacement|] + suffix == s
    ensures !EndsWith(s, suffix) ==> r == s
  {
    if EndsWith(s, suffix) then s[..|s| - |suffix|] + replacement else s
  }

  predicate IsDigit(c: char) {
    '0' <= c <= '9'
  }

  /** The regular expression `\d+`: one or more ASCII digits. */
  predicate IsDigits(s: string) {
    |s| > 0 && forall i :: 0 <= i < |s| ==> IsDigit(s[i])
  }

  /** `fields.join(sep)`. */
  function Join(fields: seq<string>, sep: string): string {
    if fields == [] then ""
    else if |fields| == 1 then fields[0]
    else fields[0] + sep + Join(fields[1..], sep)
  }

  /** The first `n` characters of `s` (`s.substring(0, n)`). */
  function Prefix(s: string, n: nat): (r: string)
    ensures |r| == if |s| < n then |s| else n
    ensures r == s[..|r|]
    ensures |s| <= n ==> r == s
  {
    if |s| <= n then s else s[..n]
  }

  /** A string with no white space at either end is its own trim. */
  lemma TrimNoSpace(s: string)
    requires s == [] || (!IsJsSpace(s[0]) && !IsJsSpace(s[|s| - 1]))
    ensures Trim(s) == s
  {
    assert LeadingSpace(s) == 0;
    assert TrailingEnd(s) == |s|;
  }

  /** `s.split(c)` for a single-character separator: the pieces between separators, at least one. */
  function Split(s: string, c: char): (r: seq<string>)
    ensures |r| >= 1
    decreases |s|
  {
    if s == [] then [""]
    else
      var rest := Split(s[1..], c);
      if s[0] == c then [""] + rest else [[s[0]] + rest[0]] + rest[1..]
  }

  /** A string without the separator splits into itself alone. */
  lemma {:induction false} SplitNone(a: string, c: char)
    requires c !in a
    ensures Split(a, c) == [a]
    decreases |a|
  {
    if a != [] {
      SplitNone(a[1..], c);
      assert [a[0]] + a[1..] == a;
    }
  }

  /** A separator-free piece followed by a separator splits off as the first piece. */
  lemma {:induction false} SplitFirst(a: string, b: string, c: char)
    requires c !in a
    ensures Split(a + [c] + b, c) == [a] + Split(b, c)
    decreases |a|
  {
    var s := a + [c] + b;
    if a == [] {
      assert s[1..] == b;
    } else {
      assert s[0] == a[0] && s[1..] == a[1..] + [c] + b;
      SplitFirst(a[1..], b, c);
      assert [a[0]] + a[1..] == a;
    }
  }

  /** Splitting undoes joining, as long as no field holds the separator. */
  lemma {:induction false} SplitJoin(fields: seq<string>, c: char)
    requires fields != []
    requires forall i :: 0 <= i < |fields| ==> c !in fields[i]
    ensures Split(Join(fields, [c]), c) == fields
  {
    if |fields| == 1 {
      SplitNone(fields[0], c);
    } else {
      SplitJoin(fields[1..], c);
      SplitFirst(fields[0], Join(fields[1..], [c]), c);
      assert [fields[0]] + fields[1..] == fields;
    }
  }
}
