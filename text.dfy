/**
 * String helpers shared by the model: substring search (JavaScript's
 * `String.prototype.includes`), the first position of a character from a set,
 * and `slice(0, -1)`.
 */
module Text {
  import opened Wrappers

  /** `p` occurs in `s` starting at index `i`. */
  ghost predicate OccursAt(s: string, p: string, i: int)
  {
    0 <= i && i + |p| <= |s| && s[i..i + |p|] == p
  }

  /** `p` occurs somewhere in `s` (the reference definition of `includes`). */
  ghost predicate Occurs(s: string, p: string)
  {
    exists i :: OccursAt(s, p, i)
  }

  /** The first index at or after `from` where `p` occurs in `s`, if any. */
  function Find(s: string, p: string, from: nat): (r: Option<nat>)
    ensures r.Some? ==> from <= r.value && OccursAt(s, p, r.value)
    ensures r.Some? ==> forall i :: from <= i < r.value ==> !OccursAt(s, p, i)
    ensures r.None? ==> forall i :: from <= i ==> !OccursAt(s, p, i)
    decreases |s| - from
  {
    if from + |p| > |s| then None
    else if s[from..from + |p|] == p then Some(from)
    else Find(s, p, from + 1)
  }

  /** `n` is the first occurrence of `p` in `s` exactly when no earlier position matches. */
  lemma FindIs(s: string, p: string, n: nat)
    requires OccursAt(s, p, n)
    requires forall i :: 0 <= i < n ==> !OccursAt(s, p, i)
    ensures Find(s, p, 0) == Some(n)
  {
  }

  /** A pattern holding a character the text lacks does not occur in it. */
  lemma AbsentChar(s: string, p: string, c: char)
    requires c in p && c !in s
    ensures !Occurs(s, p)
  {
  }

  /** JavaScript's `s.includes(p)`. */
  function Contains(s: string, p: string): (r: bool)
    ensures r <==> Occurs(s, p)
  {
    var f := Find(s, p, 0);
    if f.Some? then
      assert OccursAt(s, p, f.value);
      true
    else
      false
  }

  /** The index of the first character of `s` that is in `cs`, or `|s|` if there is none. */
  function FirstOf(s: string, cs: set<char>): (r: nat)
    ensures r <= |s|
    ensures forall k :: 0 <= k < r ==> s[k] !in cs
    ensures r < |s| ==> s[r] in cs
  {
    if |s| == 0 then 0
    else if s[0] in cs then 0
    else 1 + FirstOf(s[1..], cs)
  }

  /** JavaScript's `s.slice(0, -1)`: everything but the last character, and "" for "". */
  function DropLast(s: string): (r: string)
    ensures |s| == 0 ==> r == ""
    ensures |s| > 0 ==> r + [s[|s| - 1]] == s
  {
    if |s| == 0 then "" else s[..|s| - 1]
  }

  /** `n` is the first position of a character of `cs` in `s` exactly when the bounds say so. */
  lemma FirstOfIs(s: string, cs: set<char>, n: nat)
    requires n <= |s|
    requires forall k :: 0 <= k < n ==> s[k] !in cs
    requires n < |s| ==> s[n] in cs
    ensures FirstOf(s, cs) == n
  {
  }

  /**
   * A hyphen-free word followed by a suffix that is empty or starts with a
   * hyphen splits uniquely: equal joins have equal words and equal suffixes.
   */
  lemma SplitAtHyphen(a: string, x: string, b: string, y: string)
    requires '-' !in a && '-' !in b
    requires x == "" || x[0] == '-'
    requires y == "" || y[0] == '-'
    requires a + x == b + y
    ensures a == b && x == y
  {
    var s := a + x;
    FirstOfIs(s, {'-'}, |a|);
    FirstOfIs(b + y, {'-'}, |b|);
    assert a == s[..|a|] && b == s[..|b|];
    assert x == s[|a|..] && y == s[|b|..];
  }
}
