/**
 * A model of the one JavaScript string primitive the README updater relies on,
 * `String.prototype.indexOf(searchString, position)`. Strings are sequences of
 * Unicode scalar values; JavaScript counts UTF-16 code units instead, so for
 * text outside the Basic Multilingual Plane the indices differ, while the
 * spliced strings are the same.
 */
module JsString {

  /** `pat` occurs in `s` starting at index `k`. */
  predicate OccursAt(s: string, pat: string, k: int)
  {
    0 <= k && k + |pat| <= |s| && s[k..k + |pat|] == pat
  }

  /** `k` is the least index at or after `from` where `pat` occurs in `s`. */
  predicate IsFirstFrom(s: string, pat: string, from: int, k: int)
  {
    from <= k && OccursAt(s, pat, k) &&
    forall m :: from <= m < k ==> !OccursAt(s, pat, m)
  }

  /** JavaScript clamps the start position of `indexOf` into `[0, |s|]`. */
  function ClampPosition(from: int, len: nat): (r: nat)
    ensures r <= len
    ensures 0 <= from <= len ==> r == from
  {
    if from < 0 then 0 else if from > len then len else from
  }

  /**
   * `s.indexOf(pat, from)`: -1 when `pat` does not occur at or after the
   * clamped start, otherwise the first index where it does. An empty `pat`
   * occurs everywhere, so it yields the clamped start itself.
   */
  function IndexOf(s: string, pat: string, from: int): (r: int)
    ensures r == -1 || IsFirstFrom(s, pat, ClampPosition(from, |s|), r)
    ensures r == -1 <==> forall m :: ClampPosition(from, |s|) <= m ==> !OccursAt(s, pat, m)
  {
    SearchFrom(s, pat, ClampPosition(from, |s|))
  }

  /** The scan behind `IndexOf`, trying each start index from `i` on. */
  function SearchFrom(s: string, pat: string, i: nat): (r: int)
    requires i <= |s|
    ensures r == -1 || IsFirstFrom(s, pat, i, r)
    ensures r == -1 <==> forall m :: i <= m ==> !OccursAt(s, pat, m)
    decreases |s| - i
  {
    if i + |pat| > |s| then -1
    else if s[i..i + |pat|] == pat then i
    else SearchFrom(s, pat, i + 1)
  }

  /** The first occurrence at or after an in-range start is what `IndexOf` returns. */
  lemma IndexOfFirst(s: string, pat: string, from: int, k: int)
    requires 0 <= from <= |s|
    requires IsFirstFrom(s, pat, from, k)
    ensures IndexOf(s, pat, from) == k
  {
  }
}
