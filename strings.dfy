/** The Python string operations the pre-flight validator relies on:
    `s.split(c)[0]`, `int(s)` on a field of digits, and `pat in s`. */
module Strings {
  import opened Wrappers

  /** `s.split(sep)[0]`: the part of s before the first sep, all of s if there is none.
      It is the longest prefix of s without sep. */
  function PrefixBefore(s: string, sep: char): (p: string)
    ensures p <= s
    ensures sep !in p
    ensures |p| < |s| ==> s[|p|] == sep
  {
    if s == [] || s[0] == sep then []
    else [s[0]] + PrefixBefore(s[1..], sep)
  }

  /** The three properties of `PrefixBefore` determine it. */
  lemma PrefixBeforeUnique(s: string, sep: char, p: string)
    requires p <= s && sep !in p
    requires |p| < |s| ==> s[|p|] == sep
    ensures p == PrefixBefore(s, sep)
  {
    var q := PrefixBefore(s, sep);
    assert p == s[..|p|] && q == s[..|q|];
  }

  predicate IsDigit(c: char) {
    '0' <= c <= '9'
  }

  predicate AllDigits(s: string) {
    forall i :: 0 <= i < |s| ==> IsDigit(s[i])
  }

  function DigitValue(c: char): nat
    requires IsDigit(c)
  {
    (c as int) - ('0' as int)
  }

  /** The value of a string of decimal digits, most significant first. */
  function DigitsValue(s: string): nat
    requires AllDigits(s)
  {
    if s == [] then 0
    else 10 * DigitsValue(s[..|s| - 1]) + DigitValue(s[|s| - 1])
  }

  /** `int(s)` for a field of ASCII digits; None stands for the ValueError raised
      on anything else (an empty field, a letter, a space). */
  function ParseNat(s: string): (r: Option<nat>)
    ensures r.Some? <==> s != [] && AllDigits(s)
  {
    if s != [] && AllDigits(s) then Some(DigitsValue(s)) else None
  }

  function DigitChar(d: nat): (c: char)
    requires d < 10
    ensures IsDigit(c) && DigitValue(c) == d
  {
    ('0' as int + d) as char
  }

  /** The decimal rendering of n, without leading zeros. */
  function Decimal(n: nat): (s: string)
    ensures s != [] && AllDigits(s)
  {
    if n < 10 then [DigitChar(n)] else Decimal(n / 10) + [DigitChar(n % 10)]
  }

  /** Parsing inverts the decimal rendering. */
  lemma {:induction false} ParseDecimal(n: nat)
    ensures ParseNat(Decimal(n)) == Some(n)
  {
    DecimalValue(n);
  }

  lemma {:induction false} DecimalValue(n: nat)
    ensures DigitsValue(Decimal(n)) == n
  {
    var s := Decimal(n);
    if n < 10 {
      assert s[..0] == [];
    } else {
      assert s[..|s| - 1] == Decimal(n / 10);
      DecimalValue(n / 10);
    }
  }

  /** pat occurs in s starting at index i. */
  predicate OccursAt(s: string, pat: string, i: nat) {
    i + |pat| <= |s| && s[i..i + |pat|] == pat
  }

  /** `pat in s` on Python strings: pat is a substring of s. */
  function Contains(s: string, pat: string): (b: bool)
    ensures b <==> exists i: nat :: OccursAt(s, pat, i)
  {
    if pat <= s then
      assert OccursAt(s, pat, 0);
      true
    else if s == [] then
      false
    else
      var rest := Contains(s[1..], pat);
      ContainsShift(s, pat);
      rest
  }

  /** When pat is not a prefix of s, its occurrences in s are those in s[1..], shifted. */
  lemma ContainsShift(s: string, pat: string)
    requires s != [] && !(pat <= s)
    ensures (exists i: nat :: OccursAt(s, pat, i)) <==> (exists i: nat :: OccursAt(s[1..], pat, i))
  {
    if exists i: nat :: OccursAt(s, pat, i) {
      var i: nat :| OccursAt(s, pat, i);
      assert s[1..][i - 1..i - 1 + |pat|] == s[i..i + |pat|];
      assert OccursAt(s[1..], pat, i - 1);
    }
    if exists i: nat :: OccursAt(s[1..], pat, i) {
      var i: nat :| OccursAt(s[1..], pat, i);
      assert s[1..][i..i + |pat|] == s[i + 1..i + 1 + |pat|];
      assert OccursAt(s, pat, i + 1);
    }
  }
}
