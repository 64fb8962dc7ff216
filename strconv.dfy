/**
  Optional values, as used by the parsers and steps of the model.
 */
module Wrappers {
  datatype Option<+T> = None | Some(value: T)
}

/**
  Go's `strconv.Atoi` on a 64-bit platform: an optional `+` or `-` sign
  followed by one or more decimal digits (leading zeros allowed, no other
  characters, no spaces, no underscores), whose value lies in the range of a
  64-bit signed integer. Every other string is an error, returned as None.
 */
module Strconv {
  import opened Wrappers

  const MinInt64: int := -0x8000_0000_0000_0000
  const MaxInt64: int := 0x7FFF_FFFF_FFFF_FFFF

  /** Go's `int` on a 64-bit platform. */
  type Int64 = x: int | MinInt64 <= x <= MaxInt64

  predicate IsDigit(c: char)
  {
    '0' <= c <= '9'
  }

  predicate AllDigits(s: string)
  {
    forall i :: 0 <= i < |s| ==> IsDigit(s[i])
  }

  function DigitValue(c: char): (d: nat)
    requires IsDigit(c)
    ensures d < 10
  {
    (c as int) - ('0' as int)
  }

  function DigitChar(d: nat): (c: char)
    requires d < 10
    ensures IsDigit(c) && DigitValue(c) == d
  {
    ('0' as int + d) as char
  }

  /** The value of a string of decimal digits, most significant first. */
  function DigitsValue(s: string): nat
    requires AllDigits(s)
  {
    if s == [] then 0 else DigitsValue(s[..|s| - 1]) * 10 + DigitValue(s[|s| - 1])
  }

  /** The digits after an optional leading sign. */
  function Unsigned(s: string): (u: string)
    ensures |u| <= |s| && u == s[|s| - |u|..]
  {
    if |s| > 0 && (s[0] == '+' || s[0] == '-') then s[1..] else s
  }

  /** The value of a sign followed by digits, before any range check. */
  function SignedValue(s: string): int
    requires |Unsigned(s)| > 0 && AllDigits(Unsigned(s))
  {
    var magnitude: int := DigitsValue(Unsigned(s));
    if s[0] == '-' then -magnitude else magnitude
  }

  function Atoi(s: string): (r: Option<int>)
    ensures r.Some? ==> MinInt64 <= r.value <= MaxInt64
    ensures r.Some? ==> |Unsigned(s)| > 0 && AllDigits(Unsigned(s))
  {
    var digits := Unsigned(s);
    if |digits| == 0 || !AllDigits(digits) then None
    else
      var v := SignedValue(s);
      if MinInt64 <= v <= MaxInt64 then Some(v) else None
  }

  /** The decimal rendering of a natural number, as `strconv.Itoa` writes it. */
  function FormatNat(n: nat): (s: string)
    ensures |s| > 0 && AllDigits(s)
  {
    if n < 10 then [DigitChar(n)] else FormatNat(n / 10) + [DigitChar(n % 10)]
  }

  function Itoa(n: int): string
  {
    if n < 0 then "-" + FormatNat(-n) else FormatNat(n)
  }

  lemma {:induction false} DigitsValueOfFormatNat(n: nat)
    ensures DigitsValue(FormatNat(n)) == n
  {
    var s := FormatNat(n);
    if n >= 10 {
      assert s[..|s| - 1] == FormatNat(n / 10);
      DigitsValueOfFormatNat(n / 10);
    }
  }

  function Abs(n: int): nat
  {
    if n < 0 then -n else n
  }

  lemma ItoaParts(n: int)
    ensures Unsigned(Itoa(n)) == FormatNat(Abs(n))
    ensures Itoa(n)[0] == '-' <==> n < 0
  {
  }

  /** Atoi reads back every 64-bit integer that Itoa writes. */
  lemma AtoiItoa(n: int)
    requires MinInt64 <= n <= MaxInt64
    ensures Atoi(Itoa(n)) == Some(n)
  {
    ItoaParts(n);
    DigitsValueOfFormatNat(Abs(n));
  }

  /** A well-formed string reads as the signed value of its digits when that
      value fits in 64 bits, and fails (Go's range error) when it does not. */
  lemma AtoiWellFormed(s: string)
    requires |Unsigned(s)| > 0 && AllDigits(Unsigned(s))
    ensures Atoi(s).Some? <==> MinInt64 <= SignedValue(s) <= MaxInt64
    ensures Atoi(s).Some? ==> Atoi(s).value == SignedValue(s)
  {
  }

  /** A leading zero does not change the value of a digit string. */
  lemma {:induction false} DigitsValueLeadingZero(d: string)
    requires AllDigits(d)
    ensures AllDigits("0" + d) && DigitsValue("0" + d) == DigitsValue(d)
  {
    if d != [] {
      var z := "0" + d;
      assert z[..|z| - 1] == "0" + d[..|d| - 1];
      assert z[|z| - 1] == d[|d| - 1];
      DigitsValueLeadingZero(d[..|d| - 1]);
    } else {
      assert ("0" + d)[..0] == [];
    }
  }

  /** Leading zeros and an explicit `+` are accepted and change nothing: "007"
      and "+7" read as "7" does, and "-007" as "-7" does. */
  lemma AtoiNonCanonical(d: string)
    requires |d| > 0 && AllDigits(d)
    ensures Atoi("0" + d) == Atoi(d)
    ensures Atoi("+" + d) == Atoi(d)
    ensures Atoi("-0" + d) == Atoi("-" + d)
  {
    DigitsValueLeadingZero(d);
    assert Unsigned("0" + d) == "0" + d;
    assert Unsigned(d) == d;
    assert Unsigned("+" + d) == d;
    assert Unsigned("-" + d) == d;
    assert Unsigned("-0" + d) == "0" + d;
  }

  /** The rendering of an integer outside the 64-bit range is well formed but
      fails, as Go's range error does. */
  lemma AtoiItoaOutOfRange(n: int)
    requires n < MinInt64 || MaxInt64 < n
    ensures Atoi(Itoa(n)) == None
  {
    ItoaParts(n);
    DigitsValueOfFormatNat(Abs(n));
  }

  /** Atoi fails on the empty string, on a lone sign, and on anything with a
      character that is not a digit after the sign. */
  lemma AtoiRejects(s: string, i: nat)
    requires s == "" || s == "+" || s == "-"
             || (i < |Unsigned(s)| && !IsDigit(Unsigned(s)[i]))
    ensures Atoi(s) == None
  {
  }
}
