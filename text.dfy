/**
 * Character-level helpers shared by the property engine and the query
 * translator: lower-casing, the whitespace class used by `str.split()` and
 * `str.strip()`, decimal digits and substring occurrence.
 */
module Text {

  /** Lower-cases an ASCII capital letter; every other character is kept. */
  function LowerChar(c: char): (r: char)
    ensures !('A' <= r <= 'Z')
    ensures ('A' <= c <= 'Z') == (r != c)
  {
    if 'A' <= c <= 'Z' then (c as int + 32) as char else c
  }

  /** `s.lower()`, character by character. */
  function Lower(s: string): string
  {
    seq(|s|, i requires 0 <= i < |s| => LowerChar(s[i]))
  }

  /** `s[::-1]`. */
  function Reverse(s: string): string
  {
    seq(|s|, i requires 0 <= i < |s| => s[|s| - 1 - i])
  }

  /** The characters Python's `str.isspace()` accepts, which `split()` and `strip()` use. */
  predicate IsSpace(c: char)
  {
    || ('\t' <= c <= '\r')
    || ('\U{1c}' <= c <= ' ')
    || c == '\U{85}' || c == '\U{a0}' || c == '\U{1680}'
    || ('\U{2000}' <= c <= '\U{200a}')
    || c == '\U{2028}' || c == '\U{2029}' || c == '\U{202f}' || c == '\U{205f}'
    || c == '\U{3000}'
  }

  /** An ASCII decimal digit, what `\d` matches in the model. */
  predicate IsDigit(c: char)
  {
    '0' <= c <= '9'
  }

  /** Every character is a decimal digit. */
  predicate AllDigits(s: string)
  {
    forall k :: 0 <= k < |s| ==> IsDigit(s[k])
  }

  /** `int(s)` for a run of decimal digits. */
  function DecimalValue(s: string): nat
    requires AllDigits(s)
  {
    if s == [] then 0
    else
      assert IsDigit(s[|s| - 1]);
      DecimalValue(s[..|s| - 1]) * 10 + (s[|s| - 1] as int - '0' as int)
  }

  /** `pat` occurs in `t` starting at index `i`. */
  predicate OccursAt(t: string, pat: string, i: int)
  {
    0 <= i && i + |pat| <= |t| && t[i..i + |pat|] == pat
  }

  /** `pat in t`. */
  predicate Occurs(t: string, pat: string)
  {
    exists i :: 0 <= i <= |t| - |pat| && OccursAt(t, pat, i)
  }

  /** An occurrence of a concatenation is an occurrence of each part, one after the other. */
  lemma OccursAtConcat(t: string, a: string, b: string, i: int)
    ensures OccursAt(t, a + b, i) <==> OccursAt(t, a, i) && OccursAt(t, b, i + |a|)
  {
    if OccursAt(t, a, i) && OccursAt(t, b, i + |a|) {
      assert t[i..i + |a + b|] == t[i..i + |a|] + t[i + |a|..i + |a| + |b|];
    }
    if OccursAt(t, a + b, i) {
      assert t[i..i + |a|] == (a + b)[..|a|] == a;
      assert t[i + |a|..i + |a| + |b|] == (a + b)[|a|..] == b;
    }
  }

  /** A pattern cannot occur in a text that lacks one of its characters. */
  lemma MissingCharNoOccurrence(t: string, pat: string, c: char, i: int)
    requires c in pat && c !in t
    ensures !OccursAt(t, pat, i)
  {
  }

  /** A pattern occurs nowhere in a text that lacks one of its characters. */
  lemma MissingCharNotOccurs(t: string, pat: string, c: char)
    requires c in pat && c !in t
    ensures !Occurs(t, pat)
  {
    forall i
      ensures !OccursAt(t, pat, i)
    {
      MissingCharNoOccurrence(t, pat, c, i);
    }
  }

  /** Lower-casing leaves a string without capitals as it is. */
  lemma LowerNoCapitals(s: string)
    requires forall k :: 0 <= k < |s| ==> !('A' <= s[k] <= 'Z')
    ensures Lower(s) == s
  {
  }

  /** Reversing twice gives back the string. */
  lemma ReverseReverse(s: string)
    ensures Reverse(Reverse(s)) == s
  {
  }

  /** Lower-casing commutes with reversal. */
  lemma LowerReverse(s: string)
    ensures Lower(Reverse(s)) == Reverse(Lower(s))
  {
  }
}
