/**
 * `replaceBetween` of rollup.config.mjs: splice a substitute into a document
 * between the first start marker and the next end marker after it, and the
 * README update that uses it with the two literal markers of the README.
 */
module Splice {
  import opened JsString

  /**
   * Keep everything up to and including the first `startString`, then
   * `substitute`, then everything from the first `endString` found at or after
   * the end of that start marker. If either search fails the document is
   * returned unchanged.
   */
  function ReplaceBetween(str: string, startString: string, endString: string, substitute: string): (r: string)
    ensures r != str ==> IndexOf(str, startString, 0) != -1
    ensures r != str ==> IndexOf(str, endString, IndexOf(str, startString, 0) + |startString|) != -1
  {
    var startIndex := IndexOf(str, startString, 0);
    var endIndex := IndexOf(str, endString, startIndex + |startString|);
    if startIndex != -1 && endIndex != -1 then
      str[..startIndex + |startString|] + substitute + str[endIndex..]
    else
      str
  }

  /** No start marker anywhere: the document comes back byte for byte. */
  lemma ReplaceBetweenNoStart(str: string, startString: string, endString: string, substitute: string)
    requires forall k :: !OccursAt(str, startString, k)
    ensures ReplaceBetween(str, startString, endString, substitute) == str
  {
  }

  /**
   * The first start marker is at `i` but no end marker begins at or after its
   * end (occurrences that begin earlier, even inside the start marker, do not
   * count): the document comes back unchanged.
   */
  lemma ReplaceBetweenNoEnd(str: string, startString: string, endString: string, substitute: string, i: int)
    requires IsFirstFrom(str, startString, 0, i)
    requires forall k :: i + |startString| <= k ==> !OccursAt(str, endString, k)
    ensures ReplaceBetween(str, startString, endString, substitute) == str
  {
  }

  /** Where the two searches of `ReplaceBetween` succeed, their indices fit the document. */
  lemma SearchBounds(str: string, startString: string, endString: string, i: int, j: int)
    requires IndexOf(str, startString, 0) == i != -1
    requires IndexOf(str, endString, i + |startString|) == j != -1
    ensures 0 <= i + |startString| <= j <= |str|
  {
    assert OccursAt(str, startString, i);
    assert ClampPosition(i + |startString|, |str|) == i + |startString|;
  }

  /** `ReplaceBetween` in terms of the two indices its searches return. */
  lemma ReplaceBetweenAtIndices(str: string, startString: string, endString: string, substitute: string, i: int, j: int)
    requires IndexOf(str, startString, 0) == i != -1
    requires IndexOf(str, endString, i + |startString|) == j != -1
    ensures 0 <= i + |startString| <= j <= |str|
    ensures ReplaceBetween(str, startString, endString, substitute)
         == str[..i + |startString|] + substitute + str[j..]
  {
    SearchBounds(str, startString, endString, i, j);
  }

  /**
   * The first start marker is at `i` and the first end marker at or after its
   * end is at `j`: the result keeps the document through the start marker,
   * then the substitute, then the document from the end marker on.
   */
  lemma ReplaceBetweenHit(str: string, startString: string, endString: string, substitute: string, i: int, j: int)
    requires IsFirstFrom(str, startString, 0, i)
    requires IsFirstFrom(str, endString, i + |startString|, j)
    ensures i + |startString| <= j <= |str|
    ensures ReplaceBetween(str, startString, endString, substitute)
         == str[..i + |startString|] + substitute + str[j..]
    ensures |ReplaceBetween(str, startString, endString, substitute)|
         == i + |startString| + |substitute| + |str| - j
    ensures ReplaceBetween(str, startString, endString, substitute)[..i + |startString|]
         == str[..i + |startString|]
    ensures ReplaceBetween(str, startString, endString, substitute)[i + |startString| + |substitute|..]
         == str[j..]
  {
    IndexOfFirst(str, startString, 0, i);
    IndexOfFirst(str, endString, i + |startString|, j);
    ReplaceBetweenAtIndices(str, startString, endString, substitute, i, j);
    SpliceParts(str[..i + |startString|], substitute, str[j..]);
  }

  /** The parts of a three-way concatenation can be sliced back out. */
  lemma SpliceParts(a: string, m: string, b: string)
    ensures |a + m + b| == |a| + |m| + |b|
    ensures (a + m + b)[..|a|] == a
    ensures (a + m + b)[|a| + |m|..] == b
  {
  }

  /**
   * End markers that begin before the end of the first start marker, among
   * them any that overlap it, are never the end index, and the text through
   * the start marker, theirs included, is kept.
   */
  lemma EarlyEndMarkerIgnored(str: string, startString: string, endString: string, substitute: string, i: int, k: int)
    requires IsFirstFrom(str, startString, 0, i)
    requires 0 <= k < i + |startString|
    ensures IndexOf(str, endString, i + |startString|) != k
    ensures ReplaceBetween(str, startString, endString, substitute)[..i + |startString|] == str[..i + |startString|]
  {
    IndexOfFirst(str, startString, 0, i);
  }

  /** A window lying inside the prefix `a` of `a + b` sees the same text. */
  lemma OccursInPrefix(a: string, b: string, pat: string, k: int)
    requires 0 <= k && k + |pat| <= |a|
    ensures OccursAt(a + b, pat, k) <==> OccursAt(a, pat, k)
  {
  }

  /** A window lying inside the middle part `m` of `a + m + b` sees the same text. */
  lemma OccursInMiddle(a: string, m: string, b: string, pat: string, k: int)
    requires 0 <= k && k + |pat| <= |m|
    ensures OccursAt(a + m + b, pat, |a| + k) <==> OccursAt(m, pat, k)
  {
  }

  /**
   * The substitute neither contains the end marker nor forms one together
   * with the end marker that follows it.
   */
  predicate EndMarkerFirstAfter(substitute: string, endString: string)
  {
    IsFirstFrom(substitute + endString, endString, 0, |substitute|)
  }

  /** Whatever follows the first start marker, the start marker stays first. */
  lemma FirstStartKept(str: string, startString: string, i: int, rest: string)
    requires IsFirstFrom(str, startString, 0, i)
    ensures IsFirstFrom(str[..i + |startString|] + rest, startString, 0, i)
  {
    var a := str[..i + |startString|];
    assert str == a + str[i + |startString|..];
    forall k | 0 <= k <= i
      ensures OccursAt(a + rest, startString, k) <==> OccursAt(str, startString, k)
    {
      OccursInPrefix(a, rest, startString, k);
      OccursInPrefix(a, str[i + |startString|..], startString, k);
    }
  }

  /** After a substitute that keeps the end marker first, the end marker that follows it is the first one. */
  lemma FirstEndAfterSubstitute(a: string, substitute: string, endString: string, b: string)
    requires EndMarkerFirstAfter(substitute, endString)
    ensures IsFirstFrom(a + (substitute + endString) + b, endString, |a|, |a| + |substitute|)
  {
    var mid := substitute + endString;
    forall m | |a| <= m <= |a| + |substitute|
      ensures OccursAt(a + mid + b, endString, m) <==> OccursAt(mid, endString, m - |a|)
    {
      OccursInMiddle(a, mid, b, endString, m - |a|);
    }
  }

  /** Splicing the same substitute into an already spliced document reproduces it. */
  lemma ResplicedUnchanged(str: string, startString: string, endString: string, substitute: string, i: int, j: int)
    requires EndMarkerFirstAfter(substitute, endString)
    requires IsFirstFrom(str, startString, 0, i)
    requires IsFirstFrom(str, endString, i + |startString|, j)
    ensures ReplaceBetween(str[..i + |startString|] + substitute + str[j..], startString, endString, substitute)
         == str[..i + |startString|] + substitute + str[j..]
  {
    var p := i + |startString|;
    var a := str[..p];
    var b := str[j + |endString|..];
    var r := a + (substitute + endString) + b;
    assert r == a + substitute + str[j..] by {
      assert str[j..] == endString + b;
    }
    assert IsFirstFrom(r, startString, 0, i) by {
      FirstStartKept(str, startString, i, substitute + endString + b);
      assert r == a + (substitute + endString + b);
    }
    assert IsFirstFrom(r, endString, p, p + |substitute|) by {
      FirstEndAfterSubstitute(a, substitute, endString, b);
    }
    ReplaceBetweenHit(r, startString, endString, substitute, i, p + |substitute|);
    assert r == a + substitute + (endString + b);
    SpliceParts(a, substitute, endString + b);
  }

  /**
   * Splicing is idempotent when the substitute does not itself contain (or
   * complete) the end marker: a second splice with the same markers and
   * substitute changes nothing.
   */
  lemma {:induction false} ReplaceBetweenIdempotent(str: string, startString: string, endString: string, substitute: string)
    requires EndMarkerFirstAfter(substitute, endString)
    ensures ReplaceBetween(ReplaceBetween(str, startString, endString, substitute), startString, endString, substitute)
         == ReplaceBetween(str, startString, endString, substitute)
  {
    var i := IndexOf(str, startString, 0);
    var j := IndexOf(str, endString, i + |startString|);
    if i != -1 && j != -1 {
      assert IsFirstFrom(str, startString, 0, i);
      assert IsFirstFrom(str, endString, i + |startString|, j);
      ReplaceBetweenHit(str, startString, endString, substitute, i, j);
      ResplicedUnchanged(str, startString, endString, substitute, i, j);
    }
  }

  /** The two literal markers of the README's generated region. */
  const StartMarker: string := "<!-- Output table (auto generated do not modify) -->"
  const EndMarker: string := "<!-- END -->"

  /** The splice the updater performs, given the rendered table text. */
  function UpdateReadme(readme: string, table: string): (r: string)
    ensures r != readme ==> IndexOf(readme, StartMarker, 0) != -1
    ensures r != readme ==> IndexOf(readme, EndMarker, IndexOf(readme, StartMarker, 0) + |StartMarker|) != -1
  {
    ReplaceBetween(readme, StartMarker, EndMarker, "\n\n" + table + "\n\n")
  }

  /**
   * When both markers are found, the new README is the old one through the
   * start marker, the table framed by two line breaks on each side, and the
   * old README from the end marker on.
   */
  lemma UpdateReadmeHit(readme: string, table: string, i: int, j: int)
    requires IsFirstFrom(readme, StartMarker, 0, i)
    requires IsFirstFrom(readme, EndMarker, i + |StartMarker|, j)
    ensures UpdateReadme(readme, table)
         == readme[..i + |StartMarker|] + "\n\n" + table + "\n\n" + readme[j..]
  {
    ReplaceBetweenHit(readme, StartMarker, EndMarker, "\n\n" + table + "\n\n", i, j);
  }

  /** A window over `s` that covers index `q`, which holds a line break, is not the end marker. */
  lemma NoEndMarkerOverBreak(s: string, k: int, q: int)
    requires 0 <= k <= q < k + |EndMarker| && q < |s|
    requires s[q] == '\n'
    ensures !OccursAt(s, EndMarker, k)
  {
  }

  /**
   * Re-running the README update with the same table changes nothing, as long
   * as the rendered table does not contain the end marker.
   */
  lemma {:induction false} UpdateReadmeIdempotent(readme: string, table: string)
    requires forall k :: !OccursAt(table, EndMarker, k)
    ensures UpdateReadme(UpdateReadme(readme, table), table) == UpdateReadme(readme, table)
  {
    var sub := "\n\n" + table + "\n\n";
    var s := sub + EndMarker;
    forall k | 0 <= k < |sub|
      ensures !OccursAt(s, EndMarker, k)
    {
      if k < 2 {
        NoEndMarkerOverBreak(s, k, k);
      } else if k + |EndMarker| <= 2 + |table| {
        assert s == "\n\n" + table + ("\n\n" + EndMarker);
        OccursInMiddle("\n\n", table, "\n\n" + EndMarker, EndMarker, k - 2);
      } else {
        NoEndMarkerOverBreak(s, k, if k < 2 + |table| then 2 + |table| else k);
      }
    }
    assert OccursAt(s, EndMarker, |sub|);
    assert EndMarkerFirstAfter(sub, EndMarker);
    ReplaceBetweenIdempotent(readme, StartMarker, EndMarker, sub);
  }
}
