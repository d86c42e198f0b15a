/** The string operations the greeting and role lookup use: Python's
    `str.strip()` with no argument (its whitespace set is `str.isspace`),
    and `lower` / `capitalize` restricted to ASCII letters. */
module Text {

  /** Python's `str.isspace` for one code point. */
  predicate IsSpace(c: char)
  {
    var n := c as int;
    (9 <= n <= 13) || (28 <= n <= 32) || n == 0x85 || n == 0xA0 || n == 0x1680
    || (0x2000 <= n <= 0x200A) || n == 0x2028 || n == 0x2029 || n == 0x202F
    || n == 0x205F || n == 0x3000
  }

  predicate AllSpace(s: string)
  {
    forall i :: 0 <= i < |s| ==> IsSpace(s[i])
  }

  function LowerChar(c: char): (r: char)
  {
    if 'A' <= c <= 'Z' then (c as int + 32) as char else c
  }

  function UpperChar(c: char): (r: char)
  {
    if 'a' <= c <= 'z' then (c as int - 32) as char else c
  }

  /** Case mapping never turns a space into a non-space or back. */
  lemma CaseKeepsSpaces(c: char)
    ensures IsSpace(LowerChar(c)) <==> IsSpace(c)
    ensures IsSpace(UpperChar(c)) <==> IsSpace(c)
    ensures !('A' <= LowerChar(c) <= 'Z')
  {
  }

  function Lower(s: string): (r: string)
    ensures |r| == |s|
    ensures forall i :: 0 <= i < |s| ==> r[i] == LowerChar(s[i])
  {
    seq(|s|, i requires 0 <= i < |s| => LowerChar(s[i]))
  }

  lemma LowerAppend(a: string, b: string)
    ensures Lower(a + b) == Lower(a) + Lower(b)
  {
    assert forall i :: 0 <= i < |a + b| ==> Lower(a + b)[i] == (Lower(a) + Lower(b))[i];
  }

  /** Only letters change case. */
  lemma LowerKeepsNonLetters(s: string)
    requires forall i :: 0 <= i < |s| ==> !('A' <= s[i] <= 'Z')
    ensures Lower(s) == s
  {
  }

  /** `capitalize`: first character upper case, the rest lower case. */
  function Capitalize(s: string): (r: string)
    ensures |r| == |s|
    ensures |s| > 0 ==> r[0] == UpperChar(s[0]) && r[1..] == Lower(s[1..])
  {
    if |s| == 0 then [] else [UpperChar(s[0])] + Lower(s[1..])
  }

  /** Index of the first non-space character (`|s|` when there is none). */
  function StripStart(s: string): (i: nat)
    ensures i <= |s| && AllSpace(s[..i])
    ensures i < |s| ==> !IsSpace(s[i])
  {
    if |s| > 0 && IsSpace(s[0]) then
      var i := 1 + StripStart(s[1..]);
      assert forall k :: 1 <= k < i ==> s[..i][k] == s[1..][..i - 1][k - 1];
      i
    else 0
  }

  /** Index just past the last non-space character (0 when there is none). */
  function StripEnd(s: string): (j: nat)
    ensures j <= |s| && AllSpace(s[j..])
    ensures j > 0 ==> !IsSpace(s[j - 1])
  {
    if |s| > 0 && IsSpace(s[|s| - 1]) then
      var j := StripEnd(s[..|s| - 1]);
      assert forall m :: 0 <= m < |s| - 1 - j ==> s[j..][m] == s[..|s| - 1][j..][m];
      j
    else |s|
  }

  /** `s[i..j]` is what remains after stripping: whitespace outside it, and
      a non-space at each end of it. */
  predicate StrippedAt(s: string, i: int, j: int)
  {
    && 0 <= i <= j <= |s|
    && AllSpace(s[..i]) && AllSpace(s[j..])
    && (i < j ==> !IsSpace(s[i]) && !IsSpace(s[j - 1]))
  }

  /** `strip()`: leading whitespace is skipped first, then trailing
      whitespace of the rest. */
  function Strip(s: string): (r: string)
    ensures StrippedAt(s, StripStart(s), StripStart(s) + |r|)
    ensures r == s[StripStart(s)..StripStart(s) + |r|]
  {
    var i := StripStart(s);
    var t := s[i..];
    var j := StripEnd(t);
    assert t[j..] == s[i + j..];
    assert i + j < |s| ==> t[j] == s[i + j];
    t[..j]
  }

  /** At most one place fits the description, so it pins `Strip` down. */
  lemma StripUnique(s: string, i: int, j: int)
    requires StrippedAt(s, i, j)
    ensures Strip(s) == s[i..j]
  {
    var i', j' := StripStart(s), StripStart(s) + |Strip(s)|;
    SpacesBefore(s, i);
    SpacesBefore(s, i');
    SpacesFrom(s, j);
    SpacesFrom(s, j');
  }

  lemma SpacesBefore(s: string, i: int)
    requires 0 <= i <= |s| && AllSpace(s[..i])
    ensures forall k :: 0 <= k < i ==> IsSpace(s[k])
  {
    assert forall k :: 0 <= k < i ==> s[..i][k] == s[k];
  }

  lemma SpacesFrom(s: string, j: int)
    requires 0 <= j <= |s| && AllSpace(s[j..])
    ensures forall k :: j <= k < |s| ==> IsSpace(s[k])
  {
    forall k | j <= k < |s|
      ensures IsSpace(s[k])
    {
      assert s[j..][k - j] == s[k];
    }
  }

  lemma AllSpaceConcat(x: string, y: string)
    requires AllSpace(x) && AllSpace(y)
    ensures AllSpace(x + y)
  {
    forall k | 0 <= k < |x + y|
      ensures IsSpace((x + y)[k])
    {
      if k < |x| {
        assert (x + y)[k] == x[k];
      } else {
        assert (x + y)[k] == y[k - |x|];
      }
    }
  }

  /** How the pieces of `s` sit inside `p + s + q`. */
  lemma PadSlices(p: string, s: string, q: string, i: int, j: int)
    requires 0 <= i <= j <= |s|
    ensures var t := p + s + q;
            && t[..|p| + i] == p + s[..i]
            && t[|p| + j..] == s[j..] + q
            && t[|p| + i..|p| + j] == s[i..j]
  {
    var t := p + s + q;
    assert t == p + (s[..i] + s[i..j] + s[j..] + q) by {
      assert s == s[..i] + s[i..j] + s[j..];
    }
  }

  /** Padding with whitespace moves the strip boundaries by the padding. */
  lemma PadStrippedAt(p: string, s: string, q: string, i: int, j: int)
    requires AllSpace(p) && AllSpace(q) && StrippedAt(s, i, j)
    ensures StrippedAt(p + s + q, |p| + i, |p| + j)
    ensures (p + s + q)[|p| + i..|p| + j] == s[i..j]
  {
    var t := p + s + q;
    PadSlices(p, s, q, i, j);
    AllSpaceConcat(p, s[..i]);
    AllSpaceConcat(s[j..], q);
    assert i < j ==> t[|p| + i] == s[i] && t[|p| + j - 1] == s[j - 1];
  }

  /** Surrounding whitespace never reaches the result. */
  lemma StripPadding(p: string, s: string, q: string)
    requires AllSpace(p) && AllSpace(q)
    ensures Strip(p + s + q) == Strip(s)
  {
    var i := StripStart(s);
    var j := i + |Strip(s)|;
    PadStrippedAt(p, s, q, i, j);
    StripUnique(p + s + q, |p| + i, |p| + j);
  }

  lemma StripIdempotent(s: string)
    ensures Strip(Strip(s)) == Strip(s)
  {
    var i, j := StripStart(s), StripStart(s) + |Strip(s)|;
    var t := s[i..j];
    assert StrippedAt(t, 0, |t|);
    StripUnique(t, 0, |t|);
  }

  /** Lower-casing keeps the strip boundaries of a string. */
  lemma LowerStrippedAt(s: string, i: int, j: int)
    requires StrippedAt(s, i, j)
    ensures StrippedAt(Lower(s), i, j)
  {
    var t := Lower(s);
    forall k | 0 <= k < i
      ensures IsSpace(t[..i][k])
    {
      assert s[..i][k] == s[k];
      CaseKeepsSpaces(s[k]);
    }
    forall k | 0 <= k < |s| - j
      ensures IsSpace(t[j..][k])
    {
      assert s[j..][k] == s[j + k];
      CaseKeepsSpaces(s[j + k]);
    }
    if i < j {
      CaseKeepsSpaces(s[i]);
      CaseKeepsSpaces(s[j - 1]);
    }
  }

  lemma LowerSlice(s: string, i: int, j: int)
    requires 0 <= i <= j <= |s|
    ensures Lower(s[i..j]) == Lower(s)[i..j]
  {
    var a, b := Lower(s[i..j]), Lower(s)[i..j];
    forall k | 0 <= k < |a|
      ensures a[k] == b[k]
    {
      assert s[i..j][k] == s[i + k];
    }
  }

  /** Lower-casing and stripping commute. */
  lemma LowerStrip(s: string)
    ensures Lower(Strip(s)) == Strip(Lower(s))
  {
    var i := StripStart(s);
    var r := Strip(s);
    var j := i + |r|;
    assert r == s[i..j];
    LowerStrippedAt(s, i, j);
    StripUnique(Lower(s), i, j);
    LowerSlice(s, i, j);
  }
}
