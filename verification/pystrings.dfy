/**
 * The Python `str` operations the handler relies on: `pat in s`, `s.find(pat)`,
 * `s.split(sep)` and `s.strip()`. Whitespace for `strip` is a parameter, so the
 * lemmas hold for any whitespace class.
 */
module PyStrings {
  import opened Wrappers

  /** `pat` occurs in `s` starting at index `i`. */
  predicate OccursAt(s: string, pat: string, i: nat) {
    i + |pat| <= |s| && s[i..i + |pat|] == pat
  }

  /** Python's `pat in s` on two strings. */
  predicate Contains(s: string, pat: string) {
    exists i: nat | i <= |s| :: OccursAt(s, pat, i)
  }

  /** The first occurrence of `pat` in `s` at or after `from`. */
  function FindFrom(s: string, pat: string, from: nat): (r: Option<nat>)
    ensures r.Some? ==> from <= r.value && OccursAt(s, pat, r.value)
    ensures forall i: nat :: from <= i && (r.None? || i < r.value) ==> !OccursAt(s, pat, i)
    decreases |s| - from
  {
    if from + |pat| > |s| then None
    else if OccursAt(s, pat, from) then Some(from)
    else FindFrom(s, pat, from + 1)
  }

  /** Python's `s.find(pat)`, with `None` in place of -1: the leftmost occurrence. */
  function Find(s: string, pat: string): (r: Option<nat>)
    ensures r.Some? <==> Contains(s, pat)
    ensures r.Some? ==> OccursAt(s, pat, r.value)
    ensures r.Some? ==> forall i: nat :: i < r.value ==> !OccursAt(s, pat, i)
  {
    FindFrom(s, pat, 0)
  }

  /** An occurrence inside a slice of `s` is an occurrence in `s`, shifted by the slice start. */
  lemma SliceOccurrences(s: string, pat: string, lo: nat, hi: nat)
    requires lo <= hi <= |s|
    ensures forall i: nat :: OccursAt(s[lo..hi], pat, i) ==> lo + i <= hi && OccursAt(s, pat, lo + i)
  {
    forall i: nat | OccursAt(s[lo..hi], pat, i)
      ensures lo + i <= hi && OccursAt(s, pat, lo + i)
    {
      var a := s[lo..hi][i..i + |pat|];
      var b := s[lo + i..lo + i + |pat|];
      forall k | 0 <= k < |pat| ensures a[k] == b[k] {
        assert a[k] == s[lo..hi][i + k];
      }
      assert a == b;
    }
  }

  /** A slice of a string without `pat` has no `pat` either. */
  lemma NoOccurrenceInSlice(s: string, pat: string, lo: nat, hi: nat)
    requires lo <= hi <= |s|
    requires !Contains(s, pat)
    ensures !Contains(s[lo..hi], pat)
  {
    SliceOccurrences(s, pat, lo, hi);
  }

  /** The text before the first occurrence of a non-empty `pat` does not contain `pat`. */
  lemma PrefixBeforeFirst(s: string, pat: string, k: nat)
    requires |pat| > 0 && k <= |s|
    requires forall i: nat :: i < k ==> !OccursAt(s, pat, i)
    ensures !Contains(s[..k], pat)
  {
    SliceOccurrences(s, pat, 0, k);
    assert s[0..k] == s[..k];
  }

  /** Python's `sep.join(parts)`. */
  function Join(parts: seq<string>, sep: string): string
  {
    if |parts| == 0 then ""
    else if |parts| == 1 then parts[0]
    else parts[0] + sep + Join(parts[1..], sep)
  }

  /**
   * Python's `s.split(sep)` for a non-empty separator (Python raises ValueError on
   * an empty one): left-to-right, non-overlapping, keeping empty pieces.
   */
  function Split(s: string, sep: string): (parts: seq<string>)
    requires |sep| > 0
    ensures |parts| >= 1
    ensures |parts| >= 2 <==> Contains(s, sep)
    ensures forall i :: 0 <= i < |parts| ==> !Contains(parts[i], sep)
    ensures Join(parts, sep) == s
    ensures |parts| >= 2 ==> Find(s, sep) == Some(|parts[0]|)
    ensures forall i :: 0 <= i < |parts| - 1 ==> Find(Join(parts[i..], sep), sep) == Some(|parts[i]|)
    decreases |s|
  {
    match Find(s, sep)
    case None => [s]
    case Some(k) =>
      PrefixBeforeFirst(s, sep, k);
      var rest := Split(s[k + |sep|..], sep);
      assert s == s[..k] + sep + s[k + |sep|..];
      var parts := [s[..k]] + rest;
      assert parts[1..] == rest;
      assert forall i :: 1 <= i < |parts| ==> parts[i..] == rest[i - 1..];
      assert parts[0..] == parts;
      parts
  }

  /** The first piece of a split is the text before the first separator, or all of `s`. */
  lemma SplitHead(s: string, sep: string)
    requires |sep| > 0
    ensures Split(s, sep)[0] == (if Find(s, sep).Some? then s[..Find(s, sep).value] else s)
  {
  }

  /** The second piece of a split is the first piece of what follows the first separator. */
  lemma SplitSecond(s: string, sep: string)
    requires |sep| > 0 && Contains(s, sep)
    ensures Split(s, sep)[1] == Split(s[Find(s, sep).value + |sep|..], sep)[0]
  {
  }

  /** Splitting a string that holds no separator gives the string back as the only piece. */
  lemma SplitWithout(s: string, sep: string)
    requires |sep| > 0 && !Contains(s, sep)
    ensures Split(s, sep) == [s]
  {
  }

  /** The characters Python's `str.strip()` removes (those for which `str.isspace()` holds). */
  predicate IsPySpace(c: char) {
    || '\t' <= c <= '\r'
    || '\U{1c}' <= c <= '\U{1f}'
    || c == ' '
    || c == '\U{85}'
    || c == '\U{a0}'
    || c == '\U{1680}'
    || '\U{2000}' <= c <= '\U{200a}'
    || c == '\U{2028}'
    || c == '\U{2029}'
    || c == '\U{202f}'
    || c == '\U{205f}'
    || c == '\U{3000}'
  }

  /** Every character of `s` is whitespace. */
  predicate AllWhite(s: string, ws: char -> bool) {
    forall i :: 0 <= i < |s| ==> ws(s[i])
  }

  /** `s` neither starts nor ends with whitespace. */
  predicate Trimmed(s: string, ws: char -> bool) {
    |s| == 0 || (!ws(s[0]) && !ws(s[|s| - 1]))
  }

  /**
   * `r` is `s` with its leading and trailing whitespace removed: a slice of `s`
   * surrounded only by whitespace and itself neither starting nor ending with it.
   */
  ghost predicate IsStripOf(r: string, s: string, ws: char -> bool) {
    && Trimmed(r, ws)
    && exists i: nat, j: nat | i <= j <= |s| :: r == s[i..j] && AllWhite(s[..i], ws) && AllWhite(s[j..], ws)
  }

  /** Python's `s.lstrip()`. */
  function StripStart(s: string, ws: char -> bool): (r: string)
    ensures |r| <= |s| && r == s[|s| - |r|..]
    ensures AllWhite(s[..|s| - |r|], ws)
    ensures |r| == 0 || !ws(r[0])
    decreases |s|
  {
    if |s| > 0 && ws(s[0]) then StripStart(s[1..], ws) else s
  }

  /** Python's `s.rstrip()`. */
  function StripEnd(s: string, ws: char -> bool): (r: string)
    ensures |r| <= |s| && r == s[..|r|]
    ensures AllWhite(s[|r|..], ws)
    ensures |r| == 0 || !ws(r[|r| - 1])
    decreases |s|
  {
    if |s| > 0 && ws(s[|s| - 1]) then StripEnd(s[..|s| - 1], ws) else s
  }

  /** The slice `s[i..j]` and everything around it, for the strip characterisation. */
  lemma StripWitness(s: string, ws: char -> bool)
    ensures IsStripOf(StripEnd(StripStart(s, ws), ws), s, ws)
  {
    var t := StripStart(s, ws);
    var r := StripEnd(t, ws);
    var i := |s| - |t|;
    var j := i + |r|;
    assert t == s[i..];
    assert r == s[i..j];
    assert t[|r|..] == s[j..];
    assert |r| > 0 ==> r[0] == t[0];
    assert Trimmed(r, ws);
    assert r == s[i..j] && AllWhite(s[..i], ws) && AllWhite(s[j..], ws);
  }

  /** Python's `s.strip()` with whitespace given by `ws`. */
  function Strip(s: string, ws: char -> bool): (r: string)
    ensures IsStripOf(r, s, ws)
  {
    StripWitness(s, ws);
    StripEnd(StripStart(s, ws), ws)
  }

  /** Every character outside a slice bordered by whitespace is whitespace. */
  lemma OutsideIsWhite(s: string, ws: char -> bool, i: nat, j: nat)
    requires i <= j <= |s| && AllWhite(s[..i], ws) && AllWhite(s[j..], ws)
    ensures forall k :: 0 <= k < |s| && (k < i || j <= k) ==> ws(s[k])
  {
    forall k | 0 <= k < |s| && (k < i || j <= k) ensures ws(s[k]) {
      if k < i {
        assert s[..i][k] == s[k];
      } else {
        assert s[j..][k - j] == s[k];
      }
    }
  }

  /** Two trimmed slices that are both bordered by whitespace are the same slice. */
  lemma SameStrippedSlice(s: string, ws: char -> bool, i: nat, j: nat, i': nat, j': nat)
    requires i <= j <= |s| && AllWhite(s[..i], ws) && AllWhite(s[j..], ws) && Trimmed(s[i..j], ws)
    requires i' <= j' <= |s| && AllWhite(s[..i'], ws) && AllWhite(s[j'..], ws) && Trimmed(s[i'..j'], ws)
    ensures s[i..j] == s[i'..j']
  {
    OutsideIsWhite(s, ws, i, j);
    OutsideIsWhite(s, ws, i', j');
    if i < j {
      assert s[i..j][0] == s[i] && s[i..j][j - i - 1] == s[j - 1];
    }
    if i' < j' {
      assert s[i'..j'][0] == s[i'] && s[i'..j'][j' - i' - 1] == s[j' - 1];
    }
  }

  /** There is only one way to strip a string: `Strip` is the unique `IsStripOf` result. */
  lemma StripUnique(r: string, s: string, ws: char -> bool)
    requires IsStripOf(r, s, ws)
    ensures r == Strip(s, ws)
  {
    var t := Strip(s, ws);
    var i: nat, j: nat :| i <= j <= |s| && r == s[i..j] && AllWhite(s[..i], ws) && AllWhite(s[j..], ws);
    var i': nat, j': nat :| i' <= j' <= |s| && t == s[i'..j'] && AllWhite(s[..i'], ws) && AllWhite(s[j'..], ws);
    SameStrippedSlice(s, ws, i, j, i', j');
  }

  /** Stripping twice is the same as stripping once. */
  lemma StripIdempotent(s: string, ws: char -> bool)
    ensures Strip(Strip(s, ws), ws) == Strip(s, ws)
  {
    var r := Strip(s, ws);
    assert r == r[0..|r|] && r[..0] == [] && r[|r|..] == [];
    assert AllWhite(r[..0], ws) && AllWhite(r[|r|..], ws);
    StripUnique(r, r, ws);
  }

  /** Stripping keeps a string free of any pattern it was free of. */
  lemma StripKeepsAbsent(s: string, pat: string, ws: char -> bool)
    requires !Contains(s, pat)
    ensures !Contains(Strip(s, ws), pat)
  {
    var r := Strip(s, ws);
    var i: nat, j: nat :| i <= j <= |s| && r == s[i..j] && AllWhite(s[..i], ws) && AllWhite(s[j..], ws);
    NoOccurrenceInSlice(s, pat, i, j);
  }
}
