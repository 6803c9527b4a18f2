/**
 * String helpers of the dashboard: Python's `str.strip()`, the tokens that the
 * script treats as an empty cell, and the label truncation `tronquer`.
 * Strings are sequences of Unicode code points, as Python's `str` is.
 */
module Text {

  /** Python's `str.isspace()` for one code point: the characters `str.strip()` removes. */
  predicate IsSpace(c: char)
  {
    var n := c as int;
    || n == 0x20 || 0x09 <= n <= 0x0D || 0x1C <= n <= 0x1F
    || n == 0x85 || n == 0xA0 || n == 0x1680 || 0x2000 <= n <= 0x200A
    || n == 0x2028 || n == 0x2029 || n == 0x202F || n == 0x205F || n == 0x3000
  }

  predicate AllSpace(s: string)
  {
    forall i :: 0 <= i < |s| ==> IsSpace(s[i])
  }

  /** Neither end of `s` is a whitespace character. */
  predicate IsStripped(s: string)
  {
    s == [] || (!IsSpace(s[0]) && !IsSpace(s[|s| - 1]))
  }

  /** `str.lstrip()`: the suffix left after removing leading whitespace. */
  function StripLeft(s: string): (r: string)
    ensures |r| <= |s| && r == s[|s| - |r|..]
    ensures AllSpace(s[..|s| - |r|])
    ensures r == [] || !IsSpace(r[0])
    decreases |s|
  {
    if |s| > 0 && IsSpace(s[0]) then
      var r := StripLeft(s[1..]);
      assert s[..|s| - |r|] == [s[0]] + s[1..][..|s| - 1 - |r|];
      r
    else s
  }

  /** `str.rstrip()`: the prefix left after removing trailing whitespace. */
  function StripRight(s: string): (r: string)
    ensures |r| <= |s| && r == s[..|r|]
    ensures AllSpace(s[|r|..])
    ensures r == [] || !IsSpace(r[|r| - 1])
    decreases |s|
  {
    if |s| > 0 && IsSpace(s[|s| - 1]) then
      var r := StripRight(s[..|s| - 1]);
      assert s[|r|..] == s[..|s| - 1][|r|..] + [s[|s| - 1]];
      r
    else s
  }

  /**
   * `str.strip()`: the longest middle slice of `s` with no whitespace at either
   * end; everything cut off on both sides is whitespace.
   */
  function Strip(s: string): (r: string)
    ensures IsStripped(r)
    ensures r == [] <==> AllSpace(s)
  {
    var l := StripLeft(s);
    var r := StripRight(l);
    StripEnds(l);
    StripEmpty(s, l, r);
    r
  }

  /** `r` is the slice of `s` at offset `k`, and everything around it is whitespace. */
  predicate SpaceAround(s: string, r: string, k: nat)
  {
    k + |r| <= |s| && r == s[k..k + |r|] && AllSpace(s[..k]) && AllSpace(s[k + |r|..])
  }

  /** Where the text kept by `Strip` starts: only whitespace is cut on either side. */
  function StripStart(s: string): (k: nat)
    ensures SpaceAround(s, Strip(s), k)
  {
    var l := StripLeft(s);
    var k := |s| - |l|;
    StripSlice(s, l, StripRight(l), k);
    k
  }

  lemma StripEnds(l: string)
    requires l == [] || !IsSpace(l[0])
    ensures IsStripped(StripRight(l))
  {
    var r := StripRight(l);
    if r != [] {
      assert r[0] == l[0];
    }
  }

  lemma StripSlice(s: string, l: string, r: string, k: nat)
    requires |l| <= |s| && l == s[|s| - |l|..] && AllSpace(s[..|s| - |l|])
    requires |r| <= |l| && r == l[..|r|] && AllSpace(l[|r|..])
    requires k == |s| - |l|
    ensures SpaceAround(s, r, k)
  {
    assert s[k + |r|..] == l[|r|..];
  }

  lemma StripEmpty(s: string, l: string, r: string)
    requires |l| <= |s| && l == s[|s| - |l|..] && AllSpace(s[..|s| - |l|])
    requires l == [] || !IsSpace(l[0])
    requires |r| <= |l| && r == l[..|r|] && AllSpace(l[|r|..])
    ensures r == [] <==> AllSpace(s)
  {
    if r != [] {
      assert !IsSpace(s[|s| - |l|]);
    } else if l == [] {
      assert s == s[..|s| - |l|];
    }
  }

  /** A string without whitespace at its ends is its own strip. */
  lemma StripStripped(s: string)
    requires IsStripped(s)
    ensures Strip(s) == s
  {
  }

  /** A leading whitespace character does not change the strip. */
  lemma StripLeadingSpace(c: char, s: string)
    requires IsSpace(c)
    ensures Strip([c] + s) == Strip(s)
  {
    assert ([c] + s)[1..] == s;
  }

  /** Stripping twice is stripping once. */
  lemma StripIdempotent(s: string)
    ensures Strip(Strip(s)) == Strip(s)
  {
    StripStripped(Strip(s));
  }

  /**
   * The cell values the script treats as empty: pandas renders a missing cell
   * as "nan" and Python's `None` as "None" once a column is cast to text.
   * Matching is exact: "NAN" or " nan" are ordinary values.
   */
  predicate IsNullToken(s: string)
    ensures IsNullToken(s) ==> |s| <= 4 && IsStripped(s)
  {
    NullTokensStripped();
    s == "nan" || s == "NaN" || s == "None" || s == ""
  }

  /** The empty tokens have no surrounding whitespace. */
  lemma NullTokensStripped()
    ensures IsStripped("nan") && IsStripped("NaN") && IsStripped("None") && IsStripped("")
  {
    var a, b, c := "nan", "NaN", "None";
    assert a[0] == 'n' && a[2] == 'n' && b[0] == 'N' && b[2] == 'N' && c[0] == 'N' && c[3] == 'e';
  }

  /** A word longer than any empty token, with a visible character at each end. */
  lemma PlainWord(s: string)
    requires |s| > 4 && !IsSpace(s[0]) && !IsSpace(s[|s| - 1])
    ensures IsStripped(s) && !IsNullToken(s)
  {
  }

  /** `MAX_LIBELLE_LEN`, the width of chart labels. */
  const MaxLabelLen: nat := 30

  const Ellipsis: string := "..."

  /**
   * `tronquer`: a label shorter than the limit is kept; a longer one keeps its
   * first `MaxLabelLen - 3` characters followed by "...".
   */
  function Truncate(x: string): (r: string)
    ensures |r| <= MaxLabelLen
    ensures |x| < MaxLabelLen ==> r == x
    ensures |x| >= MaxLabelLen ==> |r| == MaxLabelLen && r[..MaxLabelLen - 3] == x[..MaxLabelLen - 3] && r[MaxLabelLen - 3..] == Ellipsis
  {
    if |x| < MaxLabelLen then x else x[..MaxLabelLen - 3] + Ellipsis
  }

  /** Truncating an already truncated label changes nothing. */
  lemma TruncateIdempotent(x: string)
    ensures Truncate(Truncate(x)) == Truncate(x)
  {
    var r := Truncate(x);
    if |x| >= MaxLabelLen {
      assert r[..MaxLabelLen - 3] + Ellipsis == r;
    }
  }
}
