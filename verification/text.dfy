/**
 * The string operations the monitor relies on: deleting every ASCII space
 * (Python's `s.replace(" ", "")`), prefix and substring tests (`startswith`,
 * `in`) and rendering a page number in decimal (an f-string `{page}`).
 */
module Text {

  /** `s` with every `' '` removed; no other character is touched. */
  function StripSpaces(s: string): (r: string)
    ensures ' ' !in r
    ensures |r| <= |s|
  {
    if |s| == 0 then ""
    else if s[0] == ' ' then StripSpaces(s[1..])
    else [s[0]] + StripSpaces(s[1..])
  }

  /** Every character other than a space occurs as often after stripping as before. */
  lemma {:induction false} StripSpacesKeepsOthers(s: string, c: char)
    requires c != ' '
    ensures multiset(StripSpaces(s))[c] == multiset(s)[c]
    decreases |s|
  {
    if |s| > 0 {
      assert s == [s[0]] + s[1..];
      StripSpacesKeepsOthers(s[1..], c);
    }
  }

  /** Two strings are equal once their spaces are deleted. */
  predicate SameIgnoringSpaces(a: string, b: string) {
    StripSpaces(a) == StripSpaces(b)
  }

  /** Deleting spaces distributes over concatenation. */
  lemma {:induction false} StripSpacesConcat(a: string, b: string)
    ensures StripSpaces(a + b) == StripSpaces(a) + StripSpaces(b)
    decreases |a|
  {
    if |a| == 0 {
      assert a + b == b;
    } else {
      assert (a + b)[0] == a[0];
      assert (a + b)[1..] == a[1..] + b;
      StripSpacesConcat(a[1..], b);
    }
  }

  /** A string without spaces is its own normal form, so normalising twice changes nothing. */
  lemma {:induction false} StripSpacesFixed(s: string)
    ensures ' ' !in s ==> StripSpaces(s) == s
    ensures StripSpaces(StripSpaces(s)) == StripSpaces(s)
    decreases |s|
  {
    if |s| > 0 {
      StripSpacesFixed(s[1..]);
      if ' ' !in s {
        assert s[0] != ' ';
        assert ' ' !in s[1..];
        assert s == [s[0]] + s[1..];
      }
    }
    var t := StripSpaces(s);
    if |t| > 0 {
      StripSpacesFixed(t[1..]);
      assert ' ' !in t[1..];
      assert t == [t[0]] + t[1..];
    }
  }

  /** Inserting one space anywhere leaves the normal form unchanged. */
  lemma InsertSpaceInvisible(s: string, i: nat)
    requires i <= |s|
    ensures SameIgnoringSpaces(s[..i] + " " + s[i..], s)
  {
    StripSpacesConcat(s[..i] + " ", s[i..]);
    StripSpacesConcat(s[..i], " ");
    StripSpacesConcat(s[..i], s[i..]);
    assert s[..i] + s[i..] == s;
  }

  /** Inserting any other character (a newline, a tab) changes the normal form. */
  lemma InsertNonSpaceVisible(s: string, i: nat, c: char)
    requires i <= |s| && c != ' '
    ensures !SameIgnoringSpaces(s[..i] + [c] + s[i..], s)
  {
    var t := s[..i] + [c] + s[i..];
    assert s == s[..i] + s[i..];
    assert multiset(t) == multiset(s) + multiset{c};
    StripSpacesKeepsOthers(t, c);
    StripSpacesKeepsOthers(s, c);
  }

  /** Python's `s.startswith(p)`. */
  predicate StartsWith(s: string, p: string) {
    |p| <= |s| && s[..|p|] == p
  }

  /** Python's `s.endswith(p)`. */
  predicate EndsWith(s: string, p: string) {
    |p| <= |s| && s[|s| - |p|..] == p
  }

  /** Python's substring test `sub in s`. */
  predicate Contains(s: string, sub: string)
    decreases |s|
  {
    StartsWith(s, sub) || (|s| > 0 && Contains(s[1..], sub))
  }

  predicate IsDigit(c: char) {
    '0' <= c <= '9'
  }

  predicate AllDigits(s: string) {
    forall i :: 0 <= i < |s| ==> IsDigit(s[i])
  }

  function DigitChar(d: nat): (c: char)
    requires d < 10
    ensures IsDigit(c)
  {
    (48 + d) as char
  }

  function DigitValue(c: char): (d: nat)
    requires IsDigit(c)
    ensures d < 10 && DigitChar(d) == c
  {
    (c as int - 48) as nat
  }

  /** The decimal rendering of `n`, without leading zeros. */
  function NatToDecimal(n: nat): (s: string)
    ensures |s| >= 1
    ensures AllDigits(s)
    ensures n > 0 ==> s[0] != '0'
    decreases n
  {
    if n < 10 then [DigitChar(n)] else NatToDecimal(n / 10) + [DigitChar(n % 10)]
  }

  /** The number a string of decimal digits denotes. */
  function DecimalValue(s: string): nat
    requires AllDigits(s)
    decreases |s|
  {
    if |s| == 0 then 0 else DecimalValue(s[..|s| - 1]) * 10 + DigitValue(s[|s| - 1])
  }

  /** Reading back a rendered number gives the number. */
  lemma {:induction false} DecimalRoundTrip(n: nat)
    ensures DecimalValue(NatToDecimal(n)) == n
    decreases n
  {
    var s := NatToDecimal(n);
    if n < 10 {
      assert s[..0] == [];
    } else {
      DecimalRoundTrip(n / 10);
      assert s[..|s| - 1] == NatToDecimal(n / 10);
    }
  }

  /** Distinct numbers render to distinct strings. */
  lemma DecimalInjective(m: nat, n: nat)
    requires NatToDecimal(m) == NatToDecimal(n)
    ensures m == n
  {
    DecimalRoundTrip(m);
    DecimalRoundTrip(n);
  }
}
