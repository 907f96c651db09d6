/**
 * The PHP string built-ins the users application relies on, on `string`
 * (a sequence of characters): `strtolower` as ASCII case folding,
 * `str_contains` as substring search, and the canonical decimal form of an
 * `int`. The model compares that decimal form of a stored id with the route
 * argument; on canonical arguments this agrees with PHP's loose `==`.
 */
module PhpStrings {

  /** True for the characters `strtolower` changes: 'A' to 'Z'. */
  predicate IsUpper(c: char) {
    'A' <= c <= 'Z'
  }

  /** One character of `strtolower`: upper-case ASCII letters become lower-case. */
  function LowerChar(c: char): (r: char)
    ensures !IsUpper(r)
    ensures !IsUpper(c) ==> r == c
    ensures IsUpper(c) ==> 'a' <= r <= 'z' && r as int - c as int == 'a' as int - 'A' as int
  {
    if IsUpper(c) then (c as int - 'A' as int + 'a' as int) as char else c
  }

  /** `strtolower(s)`: every character folded on its own, length kept. */
  function StrToLower(s: string): (r: string)
    ensures |r| == |s|
    ensures forall i :: 0 <= i < |s| ==> r[i] == LowerChar(s[i])
  {
    seq(|s|, i requires 0 <= i < |s| => LowerChar(s[i]))
  }

  /** Folding twice is folding once, so a folded search term is unchanged by a second fold. */
  lemma StrToLowerIdempotent(s: string)
    ensures StrToLower(StrToLower(s)) == StrToLower(s)
    ensures forall i :: 0 <= i < |s| ==> !IsUpper(StrToLower(s)[i])
  {
  }

  /** `needle` occurs in `haystack` starting at index `i`. */
  predicate OccursAt(haystack: string, needle: string, i: int) {
    0 <= i && i + |needle| <= |haystack| && haystack[i..i + |needle|] == needle
  }

  /**
   * `str_contains(haystack, needle)`: scans the start positions left to right.
   * The empty needle is contained in every string, as in PHP 8.
   */
  function StrContains(haystack: string, needle: string): (r: bool)
    ensures needle == [] ==> r
    ensures r ==> |needle| <= |haystack|
    ensures haystack == needle ==> r
    ensures |haystack| > 0 && haystack[1..] == needle ==> r
    decreases |haystack|
  {
    if |haystack| < |needle| then false
    else if haystack[..|needle|] == needle then true
    else StrContains(haystack[1..], needle)
  }

  /** The scan finds the needle exactly when it occurs at some position. */
  lemma {:induction false} StrContainsIff(haystack: string, needle: string)
    ensures StrContains(haystack, needle) <==> exists i :: OccursAt(haystack, needle, i)
    decreases |haystack|
  {
    if |haystack| < |needle| {
    } else if haystack[..|needle|] == needle {
      assert haystack[0..0 + |needle|] == needle;
      assert OccursAt(haystack, needle, 0);
    } else {
      var tail := haystack[1..];
      StrContainsIff(tail, needle);
      if exists i :: OccursAt(tail, needle, i) {
        var i :| OccursAt(tail, needle, i);
        assert haystack[i + 1..i + 1 + |needle|] == tail[i..i + |needle|];
        assert OccursAt(haystack, needle, i + 1);
      }
      if exists i :: OccursAt(haystack, needle, i) {
        var i :| OccursAt(haystack, needle, i);
        assert i != 0 by {
          assert haystack[0..0 + |needle|] == haystack[..|needle|];
        }
        assert tail[i - 1..i - 1 + |needle|] == haystack[i..i + |needle|];
        assert OccursAt(tail, needle, i - 1);
      }
    }
  }

  /** The character of a decimal digit. */
  function DigitChar(d: nat): (c: char)
    requires d < 10
    ensures '0' <= c <= '9' && c as int - '0' as int == d
  {
    ('0' as int + d) as char
  }

  predicate IsDigit(c: char) {
    '0' <= c <= '9'
  }

  /** The decimal digits of a natural number, most significant first, without leading zeros. */
  function Digits(n: nat): (s: string)
    ensures |s| > 0
    ensures forall i :: 0 <= i < |s| ==> IsDigit(s[i])
    ensures |s| > 1 ==> s[0] != '0'
  {
    if n < 10 then [DigitChar(n)] else Digits(n / 10) + [DigitChar(n % 10)]
  }

  /** The number a string of decimal digits denotes. */
  function DigitsValue(s: string): nat
    requires forall i :: 0 <= i < |s| ==> IsDigit(s[i])
  {
    if s == [] then 0
    else
      assert IsDigit(s[|s| - 1]);
      DigitsValue(s[..|s| - 1]) * 10 + (s[|s| - 1] as int - '0' as int)
  }

  /** Reading back the digits of `n` gives `n`. */
  lemma {:induction false} DigitsRoundTrip(n: nat)
    ensures DigitsValue(Digits(n)) == n
  {
    if n >= 10 {
      var s := Digits(n);
      assert s[..|s| - 1] == Digits(n / 10);
      DigitsRoundTrip(n / 10);
    }
  }

  /** PHP's conversion of an integer to a string: an optional '-' and the decimal digits. */
  function IntToString(n: int): (s: string)
    ensures n >= 0 ==> |s| > 0 && IsDigit(s[0])
    ensures n < 0 ==> |s| > 1 && s[0] == '-'
  {
    if n < 0 then "-" + Digits(-n) else Digits(n)
  }

  /** Different integers have different decimal strings. */
  lemma IntToStringInjective(a: int, b: int)
    requires IntToString(a) == IntToString(b)
    ensures a == b
  {
    if a < 0 && b < 0 {
      assert Digits(-a) == IntToString(a)[1..] == IntToString(b)[1..] == Digits(-b);
      DigitsRoundTrip(-a);
      DigitsRoundTrip(-b);
    } else if a >= 0 && b >= 0 {
      DigitsRoundTrip(a);
      DigitsRoundTrip(b);
    }
  }
}
