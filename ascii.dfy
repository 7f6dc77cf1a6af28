/**
 * Character-level helpers shared by the sort key of simulate.py and the file
 * names of src/config_gen.py: ASCII digits, ASCII lower-casing, int() of a
 * digit run and str() of a non-negative integer.
 */
module Ascii {

  predicate IsDigit(c: char) {
    '0' <= c <= '9'
  }

  predicate AllDigits(s: string) {
    forall i :: 0 <= i < |s| ==> IsDigit(s[i])
  }

  function DigitValue(c: char): nat
    requires IsDigit(c)
  {
    c as int - '0' as int
  }

  function DigitChar(d: nat): (c: char)
    requires d < 10
    ensures IsDigit(c) && DigitValue(c) == d
  {
    (d + '0' as int) as char
  }

  /** int() of a run of decimal digits, read most significant digit first. */
  function Value(s: string): nat
    requires AllDigits(s)
  {
    if s == [] then 0 else Value(s[..|s| - 1]) * 10 + DigitValue(s[|s| - 1])
  }

  /** str() of a non-negative integer: its decimal digits, with no leading zero. */
  function NatToString(n: nat): (s: string)
    ensures |s| >= 1 && AllDigits(s)
    ensures n == 0 ==> s == "0"
    ensures n > 0 ==> s[0] != '0'
  {
    if n < 10 then [DigitChar(n)] else NatToString(n / 10) + [DigitChar(n % 10)]
  }

  /** int(str(n)) == n. */
  lemma {:induction false} ValueOfNatToString(n: nat)
    ensures Value(NatToString(n)) == n
  {
    if n >= 10 {
      var s := NatToString(n);
      assert s[..|s| - 1] == NatToString(n / 10);
      ValueOfNatToString(n / 10);
    }
  }

  /** Distinct numbers have distinct decimal strings. */
  lemma NatToStringInjective(m: nat, n: nat)
    ensures NatToString(m) == NatToString(n) ==> m == n
  {
    ValueOfNatToString(m);
    ValueOfNatToString(n);
  }

  /** A leading zero does not change the value of a digit run. */
  lemma {:induction false} LeadingZero(s: string)
    requires AllDigits(s)
    ensures AllDigits(['0'] + s) && Value(['0'] + s) == Value(s)
  {
    if s != [] {
      var z := ['0'] + s;
      assert z[..|z| - 1] == ['0'] + s[..|s| - 1];
      LeadingZero(s[..|s| - 1]);
    }
  }

  /**
   * Two digit runs that are each followed by a non-digit, or by nothing, can
   * be told apart from the joined strings alone.
   */
  lemma DigitRunsSplit(d1: string, r1: string, d2: string, r2: string)
    requires AllDigits(d1) && AllDigits(d2)
    requires r1 == [] || !IsDigit(r1[0])
    requires r2 == [] || !IsDigit(r2[0])
    requires d1 + r1 == d2 + r2
    ensures d1 == d2 && r1 == r2
  {
    DigitLenOfRun(d1, r1);
    DigitLenOfRun(d2, r2);
    assert d1 == (d1 + r1)[..|d1|] == (d2 + r2)[..|d2|] == d2;
    assert r1 == (d1 + r1)[|d1|..] == (d2 + r2)[|d2|..] == r2;
  }

  /** A digit run followed by a non-digit, or by nothing, is exactly the digit prefix. */
  lemma DigitLenOfRun(d: string, r: string)
    requires AllDigits(d)
    requires r == [] || !IsDigit(r[0])
    ensures DigitLen(d + r) == |d|
  {
    var s := d + r;
    assert forall i :: 0 <= i < |d| ==> s[i] == d[i];
    assert r != [] ==> s[|d|] == r[0];
  }

  /** A run of non-digits followed by a digit is exactly the text prefix. */
  lemma TextLenOfRun(t: string, rest: string)
    requires forall i :: 0 <= i < |t| ==> !IsDigit(t[i])
    requires rest != [] && IsDigit(rest[0])
    ensures TextLen(t + rest) == |t|
  {
    var s := t + rest;
    assert forall i :: 0 <= i < |t| ==> s[i] == t[i];
    assert s[|t|] == rest[0];
  }

  /** str.lower() on ASCII: upper-case letters become lower case, every other character is kept. */
  function LowerChar(c: char): char {
    if 'A' <= c <= 'Z' then (c as int + 32) as char else c
  }

  function Lower(s: string): (r: string)
    ensures |r| == |s|
    ensures forall i :: 0 <= i < |s| ==> r[i] == LowerChar(s[i])
  {
    seq(|s|, i requires 0 <= i < |s| => LowerChar(s[i]))
  }

  /** Lower-casing keeps every character's digit-ness, leaves digits alone and is idempotent. */
  lemma LowerCharProperties(c: char)
    ensures IsDigit(LowerChar(c)) == IsDigit(c)
    ensures IsDigit(c) ==> LowerChar(c) == c
    ensures LowerChar(LowerChar(c)) == LowerChar(c)
    ensures !('A' <= LowerChar(c) <= 'Z')
  {
  }

  lemma LowerIdempotent(s: string)
    ensures Lower(Lower(s)) == Lower(s)
  {
    forall i | 0 <= i < |s| ensures Lower(Lower(s))[i] == Lower(s)[i] {
      LowerCharProperties(s[i]);
    }
  }

  lemma LowerOfDigits(s: string)
    requires AllDigits(s)
    ensures Lower(s) == s
  {
  }

  /** The length of the longest prefix of s that holds no digit. */
  function TextLen(s: string): (n: nat)
    ensures n <= |s|
    ensures forall i :: 0 <= i < n ==> !IsDigit(s[i])
    ensures n < |s| ==> IsDigit(s[n])
  {
    if s == [] || IsDigit(s[0]) then 0 else 1 + TextLen(s[1..])
  }

  /** The length of the longest prefix of s that holds only digits. */
  function DigitLen(s: string): (n: nat)
    ensures n <= |s|
    ensures forall i :: 0 <= i < n ==> IsDigit(s[i])
    ensures n < |s| ==> !IsDigit(s[n])
  {
    if s == [] || !IsDigit(s[0]) then 0 else 1 + DigitLen(s[1..])
  }

  /** The split points depend only on which characters are digits. */
  lemma {:induction false} SplitDependsOnDigitsOnly(a: string, b: string)
    requires |a| == |b|
    requires forall i :: 0 <= i < |a| ==> IsDigit(a[i]) == IsDigit(b[i])
    ensures TextLen(a) == TextLen(b) && DigitLen(a) == DigitLen(b)
  {
    if a != [] {
      SplitDependsOnDigitsOnly(a[1..], b[1..]);
    }
  }
}
