/**
 * String helpers that the request handlers rely on: Python's `str.strip()`,
 * the case-insensitive substring test behind the ORM's `icontains` lookup,
 * and the decimal rendering of an integer inside an f-string.
 */
module Text {

  /** Python's `str.isspace()` for one character: the Unicode whitespace set. */
  predicate IsSpace(c: char)
  {
    || ('\t' <= c <= '\r')                 // \t \n \v \f \r
    || ('\U{1c}' <= c <= '\U{1f}')         // file, group, record and unit separators
    || c == ' ' || c == '\U{85}' || c == '\U{a0}' || c == '\U{1680}'
    || ('\U{2000}' <= c <= '\U{200a}')
    || c == '\U{2028}' || c == '\U{2029}' || c == '\U{202f}' || c == '\U{205f}' || c == '\U{3000}'
  }

  /** The position of the first non-whitespace character of `s` at or after `i`, or `|s|`. */
  function SkipSpace(s: string, i: nat): (r: nat)
    requires i <= |s|
    ensures i <= r <= |s|
    ensures forall k :: i <= k < r ==> IsSpace(s[k])
    ensures r < |s| ==> !IsSpace(s[r])
    decreases |s| - i
  {
    if i < |s| && IsSpace(s[i]) then SkipSpace(s, i + 1) else i
  }

  /** The end of `s[lo..j]` once its trailing whitespace is dropped. */
  function SkipSpaceBack(s: string, lo: nat, j: nat): (r: nat)
    requires lo <= j <= |s|
    ensures lo <= r <= j
    ensures forall k :: r <= k < j ==> IsSpace(s[k])
    ensures r > lo ==> !IsSpace(s[r - 1])
    decreases j
  {
    if j > lo && IsSpace(s[j - 1]) then SkipSpaceBack(s, lo, j - 1) else j
  }

  /** `r` is `s[i..j]`, and every character of `s` outside that window is whitespace. */
  predicate TrimmedWindow(s: string, r: string, i: int, j: int)
  {
    && 0 <= i <= j <= |s| && r == s[i..j]
    && (forall k :: 0 <= k < i ==> IsSpace(s[k]))
    && (forall k :: j <= k < |s| ==> IsSpace(s[k]))
  }

  /**
   * `s.strip()`: `s` without its leading and trailing whitespace. A form field
   * counts as filled in when its stripped value is not empty, which happens
   * exactly when it holds a non-whitespace character.
   */
  function Strip(s: string): (r: string)
    ensures |r| <= |s|
    ensures exists i, j :: TrimmedWindow(s, r, i, j)
    ensures r == [] <==> forall i :: 0 <= i < |s| ==> IsSpace(s[i])
    ensures r != [] ==> !IsSpace(r[0]) && !IsSpace(r[|r| - 1])
  {
    var i := SkipSpace(s, 0);
    var j := SkipSpaceBack(s, i, |s|);
    assert TrimmedWindow(s, s[i..j], i, j);
    s[i..j]
  }

  /** Stripping twice is stripping once. */
  lemma StripIdempotent(s: string)
    ensures Strip(Strip(s)) == Strip(s)
  {
    var r := Strip(s);
    if r != [] {
      assert SkipSpace(r, 0) == 0;
      assert SkipSpaceBack(r, 0, |r|) == |r|;
    }
  }

  /** ASCII case folding: the folding SQLite's LIKE applies. */
  function LowerChar(c: char): char
  {
    if 'A' <= c <= 'Z' then (c as int + 32) as char else c
  }

  function Lower(s: string): (r: string)
    ensures |r| == |s|
    ensures forall i :: 0 <= i < |s| ==> r[i] == LowerChar(s[i])
  {
    if s == [] then [] else [LowerChar(s[0])] + Lower(s[1..])
  }

  /** `t` occurs in `s` starting at position `i`. */
  predicate OccursAt(s: string, t: string, i: int)
  {
    0 <= i <= |s| - |t| && s[i..i + |t|] == t
  }

  /** `t` occurs in `s` as a contiguous substring (Python's `t in s`). */
  function Contains(s: string, t: string): (r: bool)
    ensures r <==> exists i :: OccursAt(s, t, i)
    decreases |s|
  {
    if |t| > |s| then false
    else if s[..|t|] == t then assert OccursAt(s, t, 0); true
    else
      var r := Contains(s[1..], t);
      assert r ==> exists i :: OccursAt(s, t, i) by {
        if r {
          var i :| OccursAt(s[1..], t, i);
          assert s[1..][i..i + |t|] == s[i + 1..i + 1 + |t|];
          assert OccursAt(s, t, i + 1);
        }
      }
      assert (exists i :: OccursAt(s, t, i)) ==> r by {
        if exists i :: OccursAt(s, t, i) {
          var i :| OccursAt(s, t, i);
          assert i != 0;
          assert s[1..][i - 1..i - 1 + |t|] == s[i..i + |t|];
          assert OccursAt(s[1..], t, i - 1);
        }
      }
      r
  }

  /** The ORM's `field__icontains=q`: `q` occurs in the field, ignoring ASCII case. */
  function ContainsIgnoreCase(s: string, q: string): (r: bool)
    ensures r <==> exists i :: MatchesIgnoreCaseAt(s, q, i)
  {
    var r := Contains(Lower(s), Lower(q));
    forall i
      ensures OccursAt(Lower(s), Lower(q), i) <==> MatchesIgnoreCaseAt(s, q, i)
    {
      if 0 <= i <= |s| - |q| {
        assert Lower(s)[i..i + |q|] == Lower(q) <==>
               forall k :: 0 <= k < |q| ==> Lower(s)[i..i + |q|][k] == Lower(q)[k];
      }
    }
    r
  }

  /** `q` matches `s` at position `i` once both are case folded, character by character. */
  predicate MatchesIgnoreCaseAt(s: string, q: string, i: int)
  {
    0 <= i <= |s| - |q| && forall k :: 0 <= k < |q| ==> LowerChar(s[i + k]) == LowerChar(q[k])
  }

  /** Every string holds the empty string, so `icontains ''` would select every row. */
  lemma EmptyQueryMatchesEverything(s: string)
    ensures ContainsIgnoreCase(s, "")
  {
    assert OccursAt(Lower(s), Lower(""), 0);
  }

  predicate IsDigit(c: char)
  {
    '0' <= c <= '9'
  }

  function DigitChar(d: nat): char
    requires d < 10
  {
    ('0' as int + d) as char
  }

  /** The decimal rendering of a non-negative integer, as `str(n)` gives it. */
  function DecimalDigits(n: nat): (s: string)
    ensures |s| >= 1
    ensures forall i :: 0 <= i < |s| ==> IsDigit(s[i])
    ensures |s| > 1 ==> s[0] != '0'
  {
    if n < 10 then [DigitChar(n)] else DecimalDigits(n / 10) + [DigitChar(n % 10)]
  }

  /** The value of a string of decimal digits. */
  function DigitValue(c: char): nat
    requires IsDigit(c)
  {
    c as int - '0' as int
  }

  function DecimalValue(s: string): nat
    requires forall i :: 0 <= i < |s| ==> IsDigit(s[i])
  {
    if s == [] then 0 else 10 * DecimalValue(s[..|s| - 1]) + DigitValue(s[|s| - 1])
  }

  /** Reading back the digits of `n` gives `n`: the rendering loses nothing. */
  lemma {:induction false} DecimalRoundTrip(n: nat)
    ensures DecimalValue(DecimalDigits(n)) == n
  {
    var s := DecimalDigits(n);
    if n >= 10 {
      DecimalRoundTrip(n / 10);
      assert s[..|s| - 1] == DecimalDigits(n / 10);
    }
  }

  /** Two numbers with the same rendering are equal. */
  lemma DecimalDigitsInjective(m: nat, n: nat)
    requires DecimalDigits(m) == DecimalDigits(n)
    ensures m == n
  {
    DecimalRoundTrip(m);
    DecimalRoundTrip(n);
  }

  /** `str(i)` for any integer: a minus sign before the digits of a negative one. */
  function IntToString(i: int): (s: string)
    ensures |s| >= 1
    ensures (s[0] == '-') <==> i < 0
    ensures var digits := if i < 0 then s[1..] else s;
      && |digits| >= 1
      && (forall k :: 0 <= k < |digits| ==> IsDigit(digits[k]))
      && (|digits| > 1 ==> digits[0] != '0')
      && DecimalValue(digits) == (if i < 0 then -i else i)
  {
    if i < 0 then
      DecimalRoundTrip(-i);
      assert ("-" + DecimalDigits(-i))[1..] == DecimalDigits(-i);
      "-" + DecimalDigits(-i)
    else
      DecimalRoundTrip(i);
      DecimalDigits(i)
  }
}
