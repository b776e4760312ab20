/**
  The characters that JavaScript's `String.prototype.trim` strips and that the
  regular-expression class `\s` matches. Both are the union of the WhiteSpace
  code points (ECMA-262 section 12.2) and the LineTerminator code points
  (ECMA-262 section 12.3), so one predicate serves both.
 */
module Whitespace {

  /** WhiteSpace: TAB, VT, FF, ZWNBSP and every code point of Unicode category Zs. */
  predicate IsWhiteSpace(c: char) {
    || c == '\t' || c == '\U{000B}' || c == '\U{000C}' || c == '\U{FEFF}'
    || c == ' ' || c == '\U{00A0}' || c == '\U{1680}'
    || ('\U{2000}' <= c <= '\U{200A}')
    || c == '\U{202F}' || c == '\U{205F}' || c == '\U{3000}'
  }

  /** LineTerminator: LF, CR, LINE SEPARATOR and PARAGRAPH SEPARATOR. */
  predicate IsLineTerminator(c: char) {
    c == '\n' || c == '\r' || c == '\U{2028}' || c == '\U{2029}'
  }

  /**
    The space set of `trim` and `\s`. Every member lies in the Basic
    Multilingual Plane, and none is a backtick, so a space never belongs to a
    code fence.
   */
  predicate IsSpace(c: char): (b: bool)
    ensures b ==> c as int < 0x1_0000
    ensures b ==> c != '`'
  {
    IsWhiteSpace(c) || IsLineTerminator(c)
  }

  predicate AllSpace(s: string) {
    forall i :: 0 <= i < |s| ==> IsSpace(s[i])
  }

  /** Neither end of `s` is a space character. */
  predicate IsTrimmed(s: string) {
    |s| == 0 || (!IsSpace(s[0]) && !IsSpace(s[|s| - 1]))
  }

  /** Length of the longest all-space prefix of `s`. */
  function LeadingSpace(s: string): (n: nat)
    ensures n <= |s|
    ensures AllSpace(s[..n])
    ensures n == |s| || !IsSpace(s[n])
  {
    if |s| > 0 && IsSpace(s[0]) then
      var m := LeadingSpace(s[1..]);
      assert s[..1 + m] == [s[0]] + s[1..][..m];
      1 + m
    else
      0
  }

  /** Length of the longest all-space suffix of `s`. */
  function TrailingSpace(s: string): (n: nat)
    ensures n <= |s|
    ensures AllSpace(s[|s| - n..])
    ensures n == |s| || !IsSpace(s[|s| - n - 1])
  {
    if |s| > 0 && IsSpace(s[|s| - 1]) then
      var init := s[..|s| - 1];
      var m := TrailingSpace(init);
      assert s[|s| - (1 + m)..] == init[|init| - m..] + [s[|s| - 1]];
      1 + m
    else
      0
  }

  /** `String.prototype.trimStart`: `s` with its maximal leading space run removed. */
  function TrimStart(s: string): (r: string)
    ensures |r| <= |s| && r == s[|s| - |r|..]
    ensures AllSpace(s[..|s| - |r|])
    ensures |r| == 0 || !IsSpace(r[0])
  {
    s[LeadingSpace(s)..]
  }

  /** `String.prototype.trimEnd`: `s` with its maximal trailing space run removed. */
  function TrimEnd(s: string): (r: string)
    ensures |r| <= |s| && r == s[..|r|]
    ensures AllSpace(s[|r|..])
    ensures |r| == 0 || !IsSpace(r[|r| - 1])
  {
    s[..|s| - TrailingSpace(s)]
  }

  /** `String.prototype.trim`: both ends of `s` stripped of space characters. */
  function Trim(s: string): (r: string)
    ensures IsTrimmed(r)
    ensures exists i :: 0 <= i <= |s| - |r| && AllSpace(s[..i]) && s[i..i + |r|] == r && AllSpace(s[i + |r|..])
  {
    var t := TrimStart(s);
    var r := TrimEnd(t);
    var i := |s| - |t|;
    assert s[i..i + |r|] == t[..|r|];
    assert s[i + |r|..] == t[|r|..];
    assert AllSpace(s[..i]) && s[i..i + |r|] == r && AllSpace(s[i + |r|..]);
    r
  }

  lemma {:induction false} LeadingSpaceOfPadded(a: string, t: string)
    requires AllSpace(a)
    requires |t| == 0 || !IsSpace(t[0])
    ensures LeadingSpace(a + t) == |a|
    decreases |a|
  {
    if |a| > 0 {
      assert (a + t)[0] == a[0];
      assert (a + t)[1..] == a[1..] + t;
      LeadingSpaceOfPadded(a[1..], t);
    } else {
      assert a + t == t;
    }
  }

  lemma {:induction false} TrailingSpaceOfPadded(t: string, b: string)
    requires AllSpace(b)
    requires |t| == 0 || !IsSpace(t[|t| - 1])
    ensures TrailingSpace(t + b) == |b|
    decreases |b|
  {
    if |b| > 0 {
      var s := t + b;
      assert s[|s| - 1] == b[|b| - 1];
      assert s[..|s| - 1] == t + b[..|b| - 1];
      TrailingSpaceOfPadded(t, b[..|b| - 1]);
    } else {
      assert t + b == t;
    }
  }

  lemma TrimStartOfPadded(a: string, t: string)
    requires AllSpace(a)
    requires |t| == 0 || !IsSpace(t[0])
    ensures TrimStart(a + t) == t
  {
    LeadingSpaceOfPadded(a, t);
    assert (a + t)[|a|..] == t;
  }

  lemma TrimEndOfPadded(t: string, b: string)
    requires AllSpace(b)
    requires |t| == 0 || !IsSpace(t[|t| - 1])
    ensures TrimEnd(t + b) == t
  {
    TrailingSpaceOfPadded(t, b);
    assert (t + b)[..|t|] == t;
  }

  lemma AllSpaceConcat(a: string, b: string)
    requires AllSpace(a) && AllSpace(b)
    ensures AllSpace(a + b)
  {
    forall i | 0 <= i < |a + b|
      ensures IsSpace((a + b)[i])
    {
      if i < |a| {
        assert (a + b)[i] == a[i];
      } else {
        assert (a + b)[i] == b[i - |a|];
      }
    }
  }

  /**
    Any split of `s` into a space prefix, a trimmed middle and a space suffix
    determines `Trim(s)`: trim removes exactly the padding and nothing more.
   */
  lemma TrimOfPadded(a: string, r: string, b: string)
    requires AllSpace(a) && AllSpace(b) && IsTrimmed(r)
    ensures Trim(a + r + b) == r
  {
    if |r| == 0 {
      assert a + r + b == (a + b) + r;
      AllSpaceConcat(a, b);
      TrimStartOfPadded(a + b, r);
    } else {
      assert a + r + b == a + (r + b);
      TrimStartOfPadded(a, r + b);
      TrimEndOfPadded(r, b);
    }
  }

  /** A string is its own trim exactly when neither end is a space character. */
  lemma TrimFixedPoint(s: string)
    ensures Trim(s) == s <==> IsTrimmed(s)
  {
    if IsTrimmed(s) {
      assert [] + s + [] == s;
      TrimOfPadded([], s, []);
    }
  }

  /** Trimming twice is trimming once. */
  lemma TrimIdempotent(s: string)
    ensures Trim(Trim(s)) == Trim(s)
  {
    TrimFixedPoint(Trim(s));
  }
}
