/**
 * The pieces of Go's standard library that the resolver's string handling
 * relies on: strings.TrimSpace, strings.EqualFold against a lower-case
 * ASCII keyword, and the %d verb of package fmt.
 */
module Text {

  /** unicode.IsSpace: the Latin-1 spaces and the Unicode White_Space runes. */
  predicate IsSpace(c: char) {
    || c == '\t' || c == '\n' || c == '\U{B}' || c == '\U{C}' || c == '\r' || c == ' '
    || c == '\U{85}' || c == '\U{A0}' || c == '\U{1680}'
    || ('\U{2000}' <= c <= '\U{200A}')
    || c == '\U{2028}' || c == '\U{2029}' || c == '\U{202F}' || c == '\U{205F}' || c == '\U{3000}'
  }

  predicate AllSpace(s: string) {
    forall i :: 0 <= i < |s| ==> IsSpace(s[i])
  }

  /** Number of leading white-space characters. */
  function LeadingSpace(s: string): (n: nat)
    ensures n <= |s| && AllSpace(s[..n])
    ensures n < |s| ==> !IsSpace(s[n])
  {
    if s == [] || !IsSpace(s[0]) then 0
    else
      var n := 1 + LeadingSpace(s[1..]);
      assert s[..n] == [s[0]] + s[1..][..n - 1];
      n
  }

  /** Number of trailing white-space characters. */
  function TrailingSpace(s: string): (n: nat)
    ensures n <= |s| && AllSpace(s[|s| - n..])
    ensures n < |s| ==> !IsSpace(s[|s| - n - 1])
  {
    if s == [] || !IsSpace(s[|s| - 1]) then 0
    else
      var init := s[..|s| - 1];
      var m := TrailingSpace(init);
      assert s[|s| - (m + 1)..] == init[|init| - m..] + [s[|s| - 1]];
      assert m + 1 < |s| ==> s[|s| - (m + 1) - 1] == init[|init| - m - 1];
      m + 1
  }

  /** strings.TrimSpace: the result is a slice of `s` that neither starts
      nor ends with white space, and only white space was cut away. */
  function TrimSpace(s: string): (t: string)
    ensures |t| <= |s|
    ensures t != [] ==> !IsSpace(t[0]) && !IsSpace(t[|t| - 1])
    ensures var k := LeadingSpace(s);
            k + |t| <= |s| && t == s[k..k + |t|] && AllSpace(s[..k]) && AllSpace(s[k + |t|..])
  {
    var k := LeadingSpace(s);
    var rest := s[k..];
    var n := TrailingSpace(rest);
    var t := rest[..|rest| - n];
    assert t == s[k..k + |t|];
    assert rest[|rest| - n..] == s[k + |t|..];
    assert t != [] ==> t[0] == s[k] && t[|t| - 1] == rest[|rest| - n - 1];
    t
  }

  /** A text that neither starts nor ends with white space is its own trim. */
  lemma TrimSpaceUntouched(s: string)
    requires s != [] && !IsSpace(s[0]) && !IsSpace(s[|s| - 1])
    ensures TrimSpace(s) == s
  {
    assert s[..1][0] == s[0];
    assert s[|s| - 1..][0] == s[|s| - 1];
  }

  /** The case folding of strings.EqualFold, restricted to the runes whose
      fold orbit contains a lower-case ASCII letter: A-Z, the long s
      (U+017F, folds with s) and the Kelvin sign (U+212A, folds with k). */
  function FoldToAscii(c: char): char {
    if 'A' <= c <= 'Z' then (c as int + 32) as char
    else if c == '\U{17F}' then 's'
    else if c == '\U{212A}' then 'k'
    else c
  }

  /** strings.EqualFold(s, keyword) for a keyword made of lower-case ASCII
      letters and punctuation, the only way the resolver calls it. */
  predicate EqualFold(s: string, keyword: string) {
    |s| == |keyword| && forall i :: 0 <= i < |s| ==> FoldToAscii(s[i]) == keyword[i]
  }

  /** Unicode's simple fold orbit of a lower-case ASCII letter: the letter,
      its upper case, and for s and k the long s and the Kelvin sign. */
  lemma FoldOrbit(c: char, k: char)
    requires 'a' <= k <= 'z'
    ensures FoldToAscii(c) == k <==>
            || c == k || c as int == k as int - 32
            || (k == 's' && c == '\U{17F}') || (k == 'k' && c == '\U{212A}')
  {
  }

  /** ASCII letters put in upper case. */
  function UpperAscii(s: string): string {
    seq(|s|, i requires 0 <= i < |s| => if 'a' <= s[i] <= 'z' then (s[i] as int - 32) as char else s[i])
  }

  /** Letter case does not matter: a text matches a keyword exactly when its
      upper-case form does. */
  lemma EqualFoldIgnoresCase(s: string, keyword: string)
    ensures EqualFold(UpperAscii(s), keyword) <==> EqualFold(s, keyword)
  {
    var u := UpperAscii(s);
    forall i | 0 <= i < |s|
      ensures FoldToAscii(u[i]) == FoldToAscii(s[i])
    {
    }
  }

  predicate IsDigit(c: char) {
    '0' <= c <= '9'
  }

  predicate AllDigits(s: string) {
    forall i :: 0 <= i < |s| ==> IsDigit(s[i])
  }

  function DigitChar(d: nat): (c: char)
    requires d < 10
    ensures IsDigit(c) && c as int - '0' as int == d
  {
    ('0' as int + d) as char
  }

  /** The decimal digits of a natural number, without leading zeros. */
  function NatDecimal(n: nat): (s: string)
    ensures |s| >= 1 && AllDigits(s)
    ensures s[0] == '0' <==> n == 0
  {
    if n < 10 then [DigitChar(n)] else NatDecimal(n / 10) + [DigitChar(n % 10)]
  }

  /** fmt's %d for a Go int: a minus sign for negative numbers, then the digits. */
  function Decimal(n: int): (s: string)
    ensures |s| >= 1
    ensures n >= 0 ==> AllDigits(s)
    ensures n < 0 ==> s[0] == '-' && AllDigits(s[1..])
    ensures ' ' !in s && ':' !in s
  {
    if n < 0 then "-" + NatDecimal(-n) else NatDecimal(n)
  }

  /** Reads back a string of decimal digits. */
  function ParseNat(s: string): nat
    requires AllDigits(s)
  {
    if s == [] then 0 else ParseNat(s[..|s| - 1]) * 10 + (s[|s| - 1] as int - '0' as int)
  }

  /** Reads back the text that %d writes for an int. */
  function ParseDecimal(s: string): int
    requires s != [] && (AllDigits(s) || (s[0] == '-' && AllDigits(s[1..])))
  {
    if s[0] == '-' then -(ParseNat(s[1..]) as int) else ParseNat(s)
  }

  lemma {:induction false} ParseNatDecimal(n: nat)
    ensures ParseNat(NatDecimal(n)) == n
  {
    if n >= 10 {
      ParseNatDecimal(n / 10);
      var s := NatDecimal(n);
      assert s[..|s| - 1] == NatDecimal(n / 10);
    }
  }

  /** %d loses nothing: the written number reads back unchanged. */
  lemma DecimalRoundTrip(n: int)
    ensures ParseDecimal(Decimal(n)) == n
  {
    if n < 0 {
      ParseNatDecimal(-n);
      assert Decimal(n)[1..] == NatDecimal(-n);
    } else {
      ParseNatDecimal(n);
    }
  }

  /** Different numbers are written differently. */
  lemma DecimalInjective(a: int, b: int)
    requires Decimal(a) == Decimal(b)
    ensures a == b
  {
    DecimalRoundTrip(a);
    DecimalRoundTrip(b);
  }

  /** Position of the first `c` in `s`, or |s| when there is none. */
  function IndexOf(s: string, c: char): (k: nat)
    ensures k <= |s| && c !in s[..k]
    ensures k < |s| ==> s[k] == c
  {
    if s == [] then 0
    else if s[0] == c then 0
    else
      var k := 1 + IndexOf(s[1..], c);
      assert s[..k] == [s[0]] + s[1..][..k - 1];
      k
  }

  lemma IndexOfSeparator(a: string, c: char, b: string)
    requires c !in a
    ensures IndexOf(a + [c] + b, c) == |a|
  {
    var s := a + [c] + b;
    assert s[|a|] == c;
    assert s[..|a|] == a;
  }

  predicate HasPrefix(s: string, p: string) {
    |p| <= |s| && s[..|p|] == p
  }
}
