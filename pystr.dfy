/**
 * The small part of Python's string library that the validation rules rely on,
 * restricted to ASCII: the character tests `str.isupper`, `str.islower`,
 * `str.isdigit`, the case mapping `str.lower`, the builtins `any` and `sum`
 * over a generator of characters, and `str.find`.
 *
 * The recursive definitions carry no postconditions of their own, so that a
 * concrete key evaluates cheaply; what each one computes is stated by the
 * lemma that follows it.
 */
module PyStr {
  import opened Wrappers

  /** `c.isupper()` for an ASCII character. */
  predicate IsUpper(c: char) { 'A' <= c <= 'Z' }

  /** `c.islower()` for an ASCII character. */
  predicate IsLower(c: char) { 'a' <= c <= 'z' }

  /** `c.isdigit()` for an ASCII character. */
  predicate IsDigit(c: char) { '0' <= c <= '9' }

  /** `c.lower()`: upper-case letters map to their lower-case partner, every other character is kept. */
  function ToLower(c: char): (d: char)
    ensures IsUpper(c) ==> IsLower(d) && d as int - c as int == 'a' as int - 'A' as int
    ensures !IsUpper(c) ==> d == c
    ensures IsLower(d) <==> IsUpper(c) || IsLower(c)
  {
    if IsUpper(c) then (c as int - 'A' as int + 'a' as int) as char else c
  }

  /** `s.lower()`: the same length, each character mapped by ToLower. */
  function Lower(s: string): string {
    seq(|s|, i requires 0 <= i < |s| => ToLower(s[i]))
  }

  /** Some character of `s` at index `from` or later satisfies `p`. */
  function AnyFrom(s: string, p: char -> bool, from: nat): bool
    decreases |s| - from
  {
    if from >= |s| then false
    else p(s[from]) || AnyFrom(s, p, from + 1)
  }

  lemma {:induction false} AnyFromExists(s: string, p: char -> bool, from: nat)
    decreases |s| - from
    ensures AnyFrom(s, p, from) <==> exists i :: from <= i < |s| && p(s[i])
  {
    if from < |s| {
      AnyFromExists(s, p, from + 1);
    }
  }

  /** `any(p(c) for c in s)`: some character of `s` satisfies `p`. */
  function Any(s: string, p: char -> bool): (r: bool)
    ensures r <==> exists i :: 0 <= i < |s| && p(s[i])
  {
    AnyFromExists(s, p, 0);
    AnyFrom(s, p, 0)
  }

  /** How many characters of `s` at index `from` or later satisfy `p`. */
  function CountFrom(s: string, p: char -> bool, from: nat): nat
    requires from <= |s|
    decreases |s| - from
  {
    if from == |s| then 0
    else (if p(s[from]) then 1 else 0) + CountFrom(s, p, from + 1)
  }

  /** The count is at most the number of characters looked at; it is 0 or all of them exactly when none or all qualify. */
  lemma {:induction false} CountFromBounds(s: string, p: char -> bool, from: nat)
    requires from <= |s|
    decreases |s| - from
    ensures CountFrom(s, p, from) <= |s| - from
    ensures CountFrom(s, p, from) == 0 <==> forall i :: from <= i < |s| ==> !p(s[i])
    ensures CountFrom(s, p, from) == |s| - from <==> forall i :: from <= i < |s| ==> p(s[i])
  {
    if from < |s| {
      CountFromBounds(s, p, from + 1);
    }
  }

  /** The indices at `from` or later whose character satisfies `p`. */
  ghost function IndicesFrom(s: string, p: char -> bool, from: nat): set<nat> {
    set i: nat | from <= i < |s| && p(s[i])
  }

  /** The count from `from` is the number of qualifying indices at `from` or later. */
  lemma {:induction false} CountFromIndices(s: string, p: char -> bool, from: nat)
    requires from <= |s|
    decreases |s| - from
    ensures CountFrom(s, p, from) == |IndicesFrom(s, p, from)|
  {
    if from == |s| {
      assert IndicesFrom(s, p, from) == {};
    } else {
      CountFromIndices(s, p, from + 1);
      if p(s[from]) {
        assert IndicesFrom(s, p, from) == IndicesFrom(s, p, from + 1) + {from};
      } else {
        assert IndicesFrom(s, p, from) == IndicesFrom(s, p, from + 1);
      }
    }
  }

  /** `sum(1 for c in s if p(c))`: how many characters of `s` satisfy `p`. */
  function CountIf(s: string, p: char -> bool): (n: nat)
    ensures n <= |s|
    ensures n == 0 <==> forall i :: 0 <= i < |s| ==> !p(s[i])
    ensures n == |s| <==> forall i :: 0 <= i < |s| ==> p(s[i])
  {
    CountFromBounds(s, p, 0);
    CountFrom(s, p, 0)
  }

  /** The count is exactly the number of indices of `s` whose character satisfies `p`. */
  lemma CountIfIndices(s: string, p: char -> bool)
    ensures CountIf(s, p) == |IndicesFrom(s, p, 0)|
  {
    CountFromIndices(s, p, 0);
  }

  /** At least two characters satisfy `p` exactly when two different indices hold such characters. */
  lemma CountIfAtLeastTwo(s: string, p: char -> bool)
    ensures CountIf(s, p) >= 2 <==> exists i, j :: 0 <= i < j < |s| && p(s[i]) && p(s[j])
  {
    CountIfIndices(s, p);
    var indices := IndicesFrom(s, p, 0);
    if |indices| >= 2 {
      var i :| i in indices;
      assert |indices - {i}| == |indices| - 1;
      var j :| j in indices - {i};
      if i < j {
        assert 0 <= i < j < |s| && p(s[i]) && p(s[j]);
      } else {
        assert 0 <= j < i < |s| && p(s[j]) && p(s[i]);
      }
    }
    if exists i, j :: 0 <= i < j < |s| && p(s[i]) && p(s[j]) {
      var i, j :| 0 <= i < j < |s| && p(s[i]) && p(s[j]);
      assert {i, j} <= indices;
      assert |{i, j}| == 2;
      SubsetCardinality({i, j}, indices);
    }
  }

  lemma SubsetCardinality(a: set<nat>, b: set<nat>)
    requires a <= b
    ensures |a| <= |b|
  {
    assert b == a + (b - a);
  }

  /** `pat` occurs in `s` starting at index `i`. */
  predicate OccursAt(s: string, pat: string, i: nat) {
    i + |pat| <= |s| && s[i..i + |pat|] == pat
  }

  /** The characters of `pat` from index `k` on appear in `s` from index `i + k` on. */
  function MatchesFrom(s: string, pat: string, i: nat, k: nat): bool
    requires i + |pat| <= |s|
    decreases |pat| - k
  {
    if k >= |pat| then true
    else s[i + k] == pat[k] && MatchesFrom(s, pat, i, k + 1)
  }

  lemma {:induction false} MatchesFromAll(s: string, pat: string, i: nat, k: nat)
    requires i + |pat| <= |s|
    decreases |pat| - k
    ensures MatchesFrom(s, pat, i, k) <==> forall j :: k <= j < |pat| ==> s[i + j] == pat[j]
  {
    if k < |pat| {
      MatchesFromAll(s, pat, i, k + 1);
    }
  }

  /** Comparing character by character from the start decides whether `pat` occurs at `i`. */
  lemma MatchesFromOccurs(s: string, pat: string, i: nat)
    requires i + |pat| <= |s|
    ensures MatchesFrom(s, pat, i, 0) <==> OccursAt(s, pat, i)
  {
    MatchesFromAll(s, pat, i, 0);
    if OccursAt(s, pat, i) {
      forall j | 0 <= j < |pat| ensures s[i + j] == pat[j] {
        assert s[i..i + |pat|][j] == s[i + j];
      }
    }
  }

  /** The search behind `str.find`, started at index `from`. */
  function FindFrom(s: string, pat: string, from: nat): (r: Option<nat>)
    decreases |s| - from
    ensures r.Some? ==> from <= r.value && r.value + |pat| <= |s|
  {
    if from + |pat| > |s| then None
    else if MatchesFrom(s, pat, from, 0) then Some(from)
    else FindFrom(s, pat, from + 1)
  }

  /** The search from `from` answers the lowest occurrence at `from` or later, or None when there is none. */
  lemma {:induction false} FindFromLowest(s: string, pat: string, from: nat)
    decreases |s| - from
    ensures FindFrom(s, pat, from).Some? ==>
              from <= FindFrom(s, pat, from).value && OccursAt(s, pat, FindFrom(s, pat, from).value)
    ensures FindFrom(s, pat, from).Some? ==>
              forall q :: from <= q < FindFrom(s, pat, from).value ==> !OccursAt(s, pat, q)
    ensures FindFrom(s, pat, from).None? ==> forall q :: from <= q ==> !OccursAt(s, pat, q)
  {
    if from + |pat| <= |s| {
      MatchesFromOccurs(s, pat, from);
      if !MatchesFrom(s, pat, from, 0) {
        FindFromLowest(s, pat, from + 1);
      }
    }
  }

  /**
   * `s.find(pat)`: the lowest index at which `pat` occurs in `s`, or None
   * where Python answers -1.
   */
  function Find(s: string, pat: string): (r: Option<nat>)
    ensures r.Some? ==> r.value + |pat| <= |s|
  {
    FindFrom(s, pat, 0)
  }

  lemma FindLowest(s: string, pat: string)
    ensures Find(s, pat).Some? ==> OccursAt(s, pat, Find(s, pat).value)
    ensures Find(s, pat).Some? ==> forall q :: 0 <= q < Find(s, pat).value ==> !OccursAt(s, pat, q)
    ensures Find(s, pat).None? <==> forall q :: 0 <= q ==> !OccursAt(s, pat, q)
  {
    FindFromLowest(s, pat, 0);
  }
}
