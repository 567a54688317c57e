/** String primitives the generator relies on, modelled after the Python
    built-ins it calls: str.strip(), str.splitlines(), str.endswith(),
    str.replace() and str() on a non-negative integer. */
module Text {

  /** The characters str.strip() removes when called without arguments
      (Python's Unicode whitespace). */
  predicate IsSpace(c: char) {
    || ('\t' <= c <= '\r')                       // \t \n \v \f \r
    || ('\U{1c}' <= c <= '\U{1f}')
    || c == ' ' || c == '\U{85}' || c == '\U{a0}' || c == '\U{1680}'
    || ('\U{2000}' <= c <= '\U{200a}')
    || c == '\U{2028}' || c == '\U{2029}' || c == '\U{202f}' || c == '\U{205f}'
    || c == '\U{3000}'
  }

  /** The characters str.splitlines() treats as line boundaries. */
  predicate IsLineBreak(c: char) {
    || ('\n' <= c <= '\r')                       // \n \v \f \r
    || ('\U{1c}' <= c <= '\U{1e}')
    || c == '\U{85}' || c == '\U{2028}' || c == '\U{2029}'
  }

  predicate IsBlank(s: string) {
    forall i :: 0 <= i < |s| ==> IsSpace(s[i])
  }

  /** No whitespace at either end. */
  predicate IsStripped(s: string) {
    s == [] || (!IsSpace(s[0]) && !IsSpace(s[|s| - 1]))
  }

  predicate NoLineBreak(s: string) {
    forall i :: 0 <= i < |s| ==> !IsLineBreak(s[i])
  }

  // ---------------------------------------------------------------------
  // str.strip()

  /** The first position at or after i that does not hold whitespace, or
      |s| when there is none. */
  function SkipSpace(s: string, i: nat): (j: nat)
    requires i <= |s|
    ensures i <= j <= |s|
    ensures forall k :: i <= k < j ==> IsSpace(s[k])
    ensures j < |s| ==> !IsSpace(s[j])
    decreases |s| - i
  {
    if i < |s| && IsSpace(s[i]) then SkipSpace(s, i + 1) else i
  }

  /** The position just past the last non-whitespace character in s[lo..j],
      or lo when there is none. */
  function BackSpace(s: string, lo: nat, j: nat): (e: nat)
    requires lo <= j <= |s|
    ensures lo <= e <= j
    ensures forall k :: e <= k < j ==> IsSpace(s[k])
    ensures e > lo ==> !IsSpace(s[e - 1])
    decreases j
  {
    if j > lo && IsSpace(s[j - 1]) then BackSpace(s, lo, j - 1) else j
  }

  /** How many whitespace characters s starts with. */
  function LeadingSpace(s: string): (n: nat)
    ensures n <= |s|
  {
    SkipSpace(s, 0)
  }

  /** str.strip(): the result is a piece of s with no whitespace at its ends,
      everything around it is whitespace, and it is empty exactly when s is
      all whitespace. */
  function Strip(s: string): (r: string)
    ensures IsStripped(r)
    ensures r == [] <==> IsBlank(s)
    ensures LeadingSpace(s) + |r| <= |s|
    ensures forall k :: 0 <= k < |r| ==> r[k] == s[LeadingSpace(s) + k]
    ensures forall k :: 0 <= k < |s| && !(LeadingSpace(s) <= k < LeadingSpace(s) + |r|) ==> IsSpace(s[k])
  {
    var lo := SkipSpace(s, 0);
    var hi := BackSpace(s, lo, |s|);
    assert lo < |s| ==> lo < hi;
    s[lo..hi]
  }

  /** Strip is determined by its contract: whatever sits between a
      whitespace prefix and a whitespace suffix, and has no whitespace at its
      ends, is what Strip returns. */
  lemma StripCharacterization(a: string, m: string, b: string)
    requires IsBlank(a) && IsBlank(b) && IsStripped(m)
    ensures Strip(a + m + b) == m
  {
    var s := a + m + b;
    assert forall k :: 0 <= k < |a| ==> s[k] == a[k];
    assert forall k :: 0 <= k < |m| ==> s[|a| + k] == m[k];
    assert forall k :: 0 <= k < |b| ==> s[|a| + |m| + k] == b[k];
    if m == [] {
      assert IsBlank(s) by {
        forall k | 0 <= k < |s| ensures IsSpace(s[k]) {
          if k >= |a| { assert s[k] == b[k - |a|]; }
        }
      }
    } else {
      var lo := SkipSpace(s, 0);
      assert lo == |a| by {
        assert !IsSpace(s[|a|]);
      }
      var hi := BackSpace(s, lo, |s|);
      assert hi == |a| + |m| by {
        assert !IsSpace(s[|a| + |m| - 1]);
      }
      assert s[lo..hi] == m;
    }
  }

  lemma StripIdempotent(s: string)
    ensures Strip(Strip(s)) == Strip(s)
  {
    var m := Strip(s);
    assert [] + m + [] == m;
    StripCharacterization([], m, []);
  }

  /** A stripped string is its own strip. */
  lemma StripOfStripped(s: string)
    requires IsStripped(s)
    ensures Strip(s) == s
  {
    assert [] + s + [] == s;
    StripCharacterization([], s, []);
  }

  /** Strip never introduces a line break. */
  lemma StripKeepsNoLineBreak(s: string)
    requires NoLineBreak(s)
    ensures NoLineBreak(Strip(s))
  {
  }

  // ---------------------------------------------------------------------
  // str.splitlines()

  /** Position of the first line boundary in s, or |s| when there is none. */
  function FirstBreak(s: string): (k: nat)
    ensures k <= |s|
    ensures NoLineBreak(s[..k])
    ensures k < |s| ==> IsLineBreak(s[k])
  {
    if s == [] || IsLineBreak(s[0]) then 0
    else
      var k := 1 + FirstBreak(s[1..]);
      assert forall i :: 1 <= i < k ==> s[..k][i] == s[1..][..k - 1][i - 1];
      k
  }

  /** str.splitlines() without keepends: a "\r\n" pair is one boundary, a
      boundary at the very end does not open an empty last line. */
  function SplitLines(s: string): seq<string>
    decreases |s|
  {
    if s == [] then []
    else
      var k := FirstBreak(s);
      if k == |s| then [s]
      else
        var w := if s[k] == '\r' && k + 1 < |s| && s[k + 1] == '\n' then 2 else 1;
        [s[..k]] + SplitLines(s[k + w..])
  }

  /** No line produced by SplitLines holds a line boundary. */
  lemma {:induction false} SplitLinesNoBreaks(s: string)
    ensures forall j :: 0 <= j < |SplitLines(s)| ==> NoLineBreak(SplitLines(s)[j])
    decreases |s|
  {
    if s != [] {
      var k := FirstBreak(s);
      if k < |s| {
        var w := if s[k] == '\r' && k + 1 < |s| && s[k + 1] == '\n' then 2 else 1;
        SplitLinesNoBreaks(s[k + w..]);
      } else {
        assert s[..k] == s;
      }
    }
  }

  /** A non-empty text without boundaries is one line. */
  lemma SplitLinesSingle(a: string)
    requires a != [] && NoLineBreak(a)
    ensures SplitLines(a) == [a]
  {
    assert FirstBreak(a) == |a|;
  }

  /** The text up to the first boundary is the first line, and splitting
      goes on after that boundary; a "\r\n" pair is consumed as one. */
  lemma SplitLinesAtBreak(a: string, c: char, b: string)
    requires NoLineBreak(a) && IsLineBreak(c)
    requires !(c == '\r' && b != [] && b[0] == '\n')
    ensures SplitLines(a + [c] + b) == [a] + SplitLines(b)
  {
    var s := a + [c] + b;
    var k := |a|;
    assert s == a + ([c] + b);
    FirstBreakOf(a, [c] + b);
    assert s[k] == c;
    assert !(s[k] == '\r' && k + 1 < |s| && s[k + 1] == '\n') by {
      if k + 1 < |s| { assert s[k + 1] == b[0]; }
    }
    assert s[..k] == a;
    assert s[k + 1..] == b;
  }

  lemma SplitLinesAtCrLf(a: string, b: string)
    requires NoLineBreak(a)
    ensures SplitLines(a + "\r\n" + b) == [a] + SplitLines(b)
  {
    var s := a + "\r\n" + b;
    FirstBreakOf(a, "\r\n" + b);
    assert s == a + ("\r\n" + b);
    assert s[..|a|] == a && s[|a| + 2..] == b;
  }

  lemma {:induction false} FirstBreakOf(a: string, rest: string)
    requires NoLineBreak(a) && rest != [] && IsLineBreak(rest[0])
    ensures FirstBreak(a + rest) == |a|
  {
    if a != [] {
      assert (a + rest)[1..] == a[1..] + rest;
      FirstBreakOf(a[1..], rest);
    }
  }

  // ---------------------------------------------------------------------
  // str.endswith(), substring search, str.replace()

  predicate EndsWith(s: string, suffix: string) {
    |suffix| <= |s| && s[|s| - |suffix|..] == suffix
  }

  predicate OccursAt(s: string, pat: string, i: int) {
    0 <= i <= |s| - |pat| && s[i..i + |pat|] == pat
  }

  predicate Contains(s: string, pat: string) {
    exists i | 0 <= i <= |s| :: OccursAt(s, pat, i)
  }

  /** str.replace(pat, rep): every leftmost, non-overlapping occurrence of a
      non-empty pat is replaced by rep. */
  function Replace(s: string, pat: string, rep: string): string
    requires pat != []
    decreases |s|
  {
    if |pat| <= |s| && s[..|pat|] == pat then rep + Replace(s[|pat|..], pat, rep)
    else if s == [] then []
    else [s[0]] + Replace(s[1..], pat, rep)
  }

  /** A pattern absent from s is absent from s without its first character. */
  lemma NotContainsTail(s: string, pat: string)
    requires s != [] && !Contains(s, pat)
    ensures !Contains(s[1..], pat)
  {
    if Contains(s[1..], pat) {
      var i :| 0 <= i <= |s[1..]| && OccursAt(s[1..], pat, i);
      assert s[i + 1..i + 1 + |pat|] == s[1..][i..i + |pat|];
      assert OccursAt(s, pat, i + 1);
    }
  }

  /** Replacing a pattern that does not occur leaves the text as it is. */
  lemma {:induction false} ReplaceAbsent(s: string, pat: string, rep: string)
    requires pat != [] && !Contains(s, pat)
    ensures Replace(s, pat, rep) == s
    decreases |s|
  {
    assert !OccursAt(s, pat, 0);
    if s != [] {
      NotContainsTail(s, pat);
      ReplaceAbsent(s[1..], pat, rep);
    }
  }

  // ---------------------------------------------------------------------
  // str() of a non-negative integer

  predicate IsDigit(c: char) {
    '0' <= c <= '9'
  }

  predicate AllDigits(s: string) {
    forall i :: 0 <= i < |s| ==> IsDigit(s[i])
  }

  function DigitChar(d: nat): (c: char)
    requires d < 10
    ensures IsDigit(c) && c as int - '0' as int == d
  {
    ('0' as int + d) as char
  }

  /** Decimal notation without leading zeros, as str(n) writes it. */
  function Decimal(n: nat): (s: string)
    ensures s != [] && AllDigits(s)
    ensures s[0] == '0' ==> n == 0
    decreases n
  {
    if n < 10 then [DigitChar(n)]
    else
      var p := Decimal(n / 10);
      p + [DigitChar(n % 10)]
  }

  /** The value of a string of decimal digits (int() on such a string). */
  function ParseDecimal(s: string): nat
    requires AllDigits(s)
    decreases |s|
  {
    if s == [] then 0
    else ParseDecimal(s[..|s| - 1]) * 10 + (s[|s| - 1] as int - '0' as int)
  }

  lemma {:induction false} DecimalRoundTrip(n: nat)
    ensures ParseDecimal(Decimal(n)) == n
    decreases n
  {
    if n >= 10 {
      var s := Decimal(n);
      assert s[..|s| - 1] == Decimal(n / 10);
      DecimalRoundTrip(n / 10);
    }
  }

  /** Different numbers are written differently. */
  lemma DecimalInjective(m: nat, n: nat)
    requires Decimal(m) == Decimal(n)
    ensures m == n
  {
    DecimalRoundTrip(m);
    DecimalRoundTrip(n);
  }
}
