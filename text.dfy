/**
 * Text helpers shared by the keyword matchers, the search filter and the
 * generated explanation strings: ASCII case folding, substring search,
 * the JavaScript notion of white space, and the decimal rendering of a
 * non-negative integer that a template literal `${n}` produces.
 */
module Text {

  /** Lower-cases one character; only the ASCII letters A-Z change. */
  function LowerChar(c: char): char
  {
    if 'A' <= c <= 'Z' then (c as int + 32) as char else c
  }

  /** `s.toLowerCase()`, restricted to ASCII case folding. */
  function Lower(s: string): (r: string)
    ensures |r| == |s|
    ensures forall k :: 0 <= k < |s| ==> r[k] == LowerChar(s[k])
  {
    seq(|s|, k requires 0 <= k < |s| => LowerChar(s[k]))
  }

  /** No character of `s` is an ASCII capital letter. */
  predicate NoUpper(s: string)
  {
    forall k :: 0 <= k < |s| ==> !('A' <= s[k] <= 'Z')
  }

  /** Text without capitals is its own lower-case form. */
  lemma LowerNoUpper(s: string)
    requires NoUpper(s)
    ensures Lower(s) == s
  {
  }

  /** `needle` occurs in `hay` starting at index `k`. */
  predicate OccursAt(needle: string, hay: string, k: int)
  {
    0 <= k && k + |needle| <= |hay| && hay[k..k + |needle|] == needle
  }

  /** `s.startsWith(prefix)`. */
  predicate StartsWith(s: string, prefix: string)
  {
    |prefix| <= |s| && s[..|prefix|] == prefix
  }

  /**
   * A text that starts with one of two prefixes which differ at position
   * `k` starts with exactly that one.
   */
  lemma ChosenPrefix(a: string, b: string, k: nat, pickA: bool, rest: string)
    requires k < |a| && k < |b| && a[k] != b[k]
    ensures var s := (if pickA then a else b) + rest;
            (StartsWith(s, a) <==> pickA) && (StartsWith(s, b) <==> !pickA)
  {
    var s := (if pickA then a else b) + rest;
    if pickA {
      assert s[..|a|] == a;
      assert s[k] == a[k];
      assert |b| <= |s| ==> s[..|b|][k] != b[k];
    } else {
      assert s[..|b|] == b;
      assert s[k] == b[k];
      assert |a| <= |s| ==> s[..|a|][k] != a[k];
    }
  }

  /** `hay.includes(needle)`. */
  predicate Contains(hay: string, needle: string)
  {
    exists k :: 0 <= k <= |hay| - |needle| && OccursAt(needle, hay, k)
  }

  /** Lower-casing both sides keeps an occurrence where it was. */
  lemma ContainsLower(hay: string, needle: string)
    requires Contains(hay, needle)
    ensures Contains(Lower(hay), Lower(needle))
  {
    var k :| 0 <= k <= |hay| - |needle| && OccursAt(needle, hay, k);
    assert Lower(hay)[k..k + |needle|] == Lower(needle) by {
      forall m | 0 <= m < |needle|
        ensures Lower(hay)[k..k + |needle|][m] == Lower(needle)[m]
      {
        assert hay[k + m] == needle[m];
      }
    }
    assert OccursAt(Lower(needle), Lower(hay), k);
  }

  /** A needle whose first character does not occur in `hay` is not in it. */
  lemma NotContainsFirstChar(hay: string, needle: string)
    requires |needle| > 0 && needle[0] !in hay
    ensures !Contains(hay, needle)
  {
  }

  /**
   * The characters that JavaScript's `String.prototype.trim` removes:
   * the WhiteSpace production (tab, vertical tab, form feed, no-break
   * space, byte order mark and every Zs space separator) and the
   * LineTerminator production (LF, CR, LS, PS).
   */
  predicate IsJsWhiteSpace(c: char)
  {
    var n := c as int;
    n == 0x09 || n == 0x0A || n == 0x0B || n == 0x0C || n == 0x0D ||
    n == 0x20 || n == 0xA0 || n == 0x1680 || (0x2000 <= n <= 0x200A) ||
    n == 0x2028 || n == 0x2029 || n == 0x202F || n == 0x205F ||
    n == 0x3000 || n == 0xFEFF
  }

  /** `!s.trim()`: the string is empty once white space is trimmed. */
  predicate IsBlank(s: string)
  {
    forall k :: 0 <= k < |s| ==> IsJsWhiteSpace(s[k])
  }

  /** `s.trimStart()`: leading white space removed. */
  function TrimStart(s: string): (r: string)
    ensures |r| <= |s| && r == s[|s| - |r|..]
    ensures r == [] || !IsJsWhiteSpace(r[0])
    ensures IsBlank(s[..|s| - |r|])
    decreases |s|
  {
    if s != [] && IsJsWhiteSpace(s[0]) then
      var r := TrimStart(s[1..]);
      assert s[..|s| - |r|] == [s[0]] + s[1..][..|s| - 1 - |r|];
      r
    else s
  }

  /** `s.trimEnd()`: trailing white space removed. */
  function TrimEnd(s: string): (r: string)
    ensures |r| <= |s| && r == s[..|r|]
    ensures r == [] || !IsJsWhiteSpace(r[|r| - 1])
    ensures IsBlank(s[|r|..])
    decreases |s|
  {
    if s != [] && IsJsWhiteSpace(s[|s| - 1]) then
      var r := TrimEnd(s[..|s| - 1]);
      assert s[|r|..] == s[..|s| - 1][|r|..] + [s[|s| - 1]];
      r
    else s
  }

  /** `s.trim()`. */
  function Trim(s: string): string
  {
    TrimEnd(TrimStart(s))
  }

  /** `!s.trim()` holds exactly for a text made of white space only. */
  lemma BlankIffTrimEmpty(s: string)
    ensures Trim(s) == [] <==> IsBlank(s)
  {
    var t := TrimStart(s);
    if Trim(s) == [] {
      assert IsBlank(t) by {
        assert t[|TrimEnd(t)|..] == t;
      }
      assert s == s[..|s| - |t|] + t;
    }
  }

  predicate IsDigit(c: char)
  {
    '0' <= c <= '9'
  }

  function DigitChar(d: nat): (c: char)
    requires d < 10
    ensures IsDigit(c) && c as int - '0' as int == d
  {
    ('0' as int + d) as char
  }

  /** The decimal text of `n`, as `${n}` renders a non-negative integer. */
  function ToDecimal(n: nat): (r: string)
    ensures |r| >= 1
    ensures forall k :: 0 <= k < |r| ==> IsDigit(r[k])
    ensures r[0] == '0' <==> n == 0
    decreases n
  {
    if n < 10 then [DigitChar(n)] else ToDecimal(n / 10) + [DigitChar(n % 10)]
  }

  /** A decimal rendering holds no character other than digits. */
  lemma NotInDecimal(c: char, n: nat)
    requires !IsDigit(c)
    ensures c !in ToDecimal(n)
  {
  }

  /** Reads back a string of decimal digits. */
  function FromDecimal(s: string): nat
    requires forall k :: 0 <= k < |s| ==> IsDigit(s[k])
    decreases |s|
  {
    if s == [] then 0
    else
      assert IsDigit(s[|s| - 1]);
      FromDecimal(s[..|s| - 1]) * 10 + (s[|s| - 1] as int - '0' as int) as nat
  }

  /** The rendering loses nothing: reading it back gives the number. */
  lemma {:induction false} DecimalRoundTrip(n: nat)
    ensures FromDecimal(ToDecimal(n)) == n
    decreases n
  {
    if n >= 10 {
      var s := ToDecimal(n);
      assert s[..|s| - 1] == ToDecimal(n / 10);
      DecimalRoundTrip(n / 10);
    }
  }

  /** `s[i..j]` is a run of decimal digits that reads as `n`. */
  predicate NumberAt(s: string, i: int, j: int, n: nat)
  {
    && 0 <= i <= j <= |s|
    && (forall k :: i <= k < j ==> IsDigit(s[k]))
    && FromDecimal(s[i..j]) == n
  }

  /** A number rendered between two texts can be read back from its place. */
  lemma NumberAtConcat(pre: string, n: nat, post: string)
    ensures NumberAt(pre + ToDecimal(n) + post, |pre|, |pre| + |ToDecimal(n)|, n)
  {
    var s := pre + ToDecimal(n) + post;
    assert s[|pre|..|pre| + |ToDecimal(n)|] == ToDecimal(n);
    DecimalRoundTrip(n);
  }

  /** The same, counted from the end: the number sits just before the trailing text. */
  lemma NumberBeforeSuffix(pre: string, n: nat, post: string)
    ensures var s := pre + ToDecimal(n) + post;
            var at := |s| - |post| - |ToDecimal(n)|;
            at == |pre| && NumberAt(s, at, |s| - |post|, n)
  {
    NumberAtConcat(pre, n, post);
  }

  /** A number that can be read back from a text still can once more text follows. */
  lemma NumberAtExtend(s: string, t: string, u: string, i: nat, j: nat, n: nat)
    requires NumberAt(s, i, j, n)
    ensures NumberAt(s + t + u, i, j, n)
  {
    assert (s + t + u)[i..j] == s[i..j];
  }

  /** Regrouping a concatenation of four texts. */
  lemma Regroup(a: string, b: string, c: string, d: string)
    ensures a + (b + c + d) == a + b + c + d
  {
  }
}
