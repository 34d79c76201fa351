/** Decimal text of C# `int` values: Int32.ToString() and Int32.TryParse
    (culture-invariant signs and digits), and the zero-padded fields of a
    custom date format. */
module Numbers {
  import opened Wrappers

  const MinInt32: int := -0x8000_0000
  const MaxInt32: int := 0x7FFF_FFFF

  /** The C# `int` type: 32-bit two's complement. */
  type int32 = x: int | MinInt32 <= x <= MaxInt32

  predicate IsDigit(c: char) { '0' <= c <= '9' }

  predicate AllDigits(s: string) {
    forall i :: 0 <= i < |s| ==> IsDigit(s[i])
  }

  function DigitChar(d: nat): (c: char)
    requires d < 10
    ensures IsDigit(c) && c as int - '0' as int == d
  {
    ('0' as int + d) as char
  }

  /** The number a string of decimal digits denotes (leading zeros allowed). */
  function DigitsValue(s: string): nat
    requires AllDigits(s)
  {
    if s == [] then 0 else DigitsValue(s[..|s| - 1]) * 10 + (s[|s| - 1] as int - '0' as int)
  }

  /** The shortest decimal text of `n`: digits only, no leading zero unless
      `n` is zero itself, and reading the digits back gives `n`. */
  function NatToDigits(n: nat): (s: string)
    ensures |s| >= 1 && AllDigits(s)
    ensures |s| > 1 ==> s[0] != '0'
    ensures DigitsValue(s) == n
    decreases n
  {
    if n < 10 then [DigitChar(n)]
    else
      var s := NatToDigits(n / 10) + [DigitChar(n % 10)];
      assert s[..|s| - 1] == NatToDigits(n / 10);
      s
  }

  /** Int32.ToString(): an optional '-' followed by the shortest digits. */
  function FormatInt32(n: int32): (s: string)
    ensures |s| >= 1
    ensures s[0] == '-' <==> n < 0
    ensures AllDigits(if n < 0 then s[1..] else s)
  {
    var m: int := n;
    if m < 0 then "-" + NatToDigits(-m) else NatToDigits(m)
  }

  /** Int32.TryParse on a string with no white space at either end: an
      optional '+' or '-', at least one digit and nothing else, and a value
      that fits in 32 bits; anything else fails. */
  function ParseInt32(s: string): (r: Option<int32>)
    ensures r.Some? ==> |s| >= 1 && (s[0] == '-' || s[0] == '+' ==> |s| >= 2)
    ensures r.Some? ==> AllDigits(if s[0] == '-' || s[0] == '+' then s[1..] else s)
    ensures r.Some? && r.value < 0 ==> s[0] == '-'
    ensures var d := if |s| > 0 && (s[0] == '-' || s[0] == '+') then s[1..] else s;
            |d| >= 1 && AllDigits(d) ==>
              var v := if s[0] == '-' then 0 - DigitsValue(d) else DigitsValue(d);
              (MinInt32 <= v <= MaxInt32 ==> r == Some(v)) && (r.Some? ==> r.value == v)
  {
    var negative := |s| > 0 && s[0] == '-';
    var digits := if |s| > 0 && (s[0] == '-' || s[0] == '+') then s[1..] else s;
    if digits == [] || !AllDigits(digits) then None
    else
      var v: int := if negative then -(DigitsValue(digits) as int) else DigitsValue(digits);
      if MinInt32 <= v <= MaxInt32 then Some(v) else None
  }

  /** Every 32-bit value is read back from its own text, the negative
      extreme included. */
  lemma {:induction false} ParseFormatInt32(n: int32)
    ensures ParseInt32(FormatInt32(n)) == Some(n)
  {
  }

  /** Text that ParseInt32 reads as `n` and that has the canonical shape
      (no '+', no leading zero, no "-0") is exactly FormatInt32(n). */
  lemma {:induction false} FormatParseInt32(s: string, n: int32)
    requires ParseInt32(s) == Some(n)
    requires s[0] != '+'
    requires var d := if s[0] == '-' then s[1..] else s; |d| > 1 ==> d[0] != '0'
    requires s != "-0"
    ensures FormatInt32(n) == s
  {
    if s[0] == '-' {
      var d := s[1..];
      assert |d| >= 1 && AllDigits(d) && n == 0 - DigitsValue(d);
      NegativeCanonical(s, d, n);
    } else {
      assert AllDigits(s) && n == DigitsValue(s);
      CanonicalDigits(s);
    }
  }

  /** The negative case of FormatParseInt32: "-" before canonical digits
      of a non-zero value is the text of the negated value. */
  lemma {:induction false} NegativeCanonical(s: string, d: string, n: int)
    requires |s| >= 2 && s[0] == '-' && d == s[1..] && s != "-0"
    requires AllDigits(d) && (|d| > 1 ==> d[0] != '0')
    requires n == 0 - DigitsValue(d)
    ensures n < 0 && "-" + NatToDigits(-n) == s
  {
    CanonicalDigits(d);
    assert DigitsValue(d) != 0 by {
      if |d| == 1 { assert d[0] != '0'; } else { LeadingDigitPositive(d); }
    }
    assert s == "-" + d;
  }

  /** Digits without a leading zero are the shortest text of their value. */
  lemma {:induction false} CanonicalDigits(d: string)
    requires |d| >= 1 && AllDigits(d)
    requires |d| > 1 ==> d[0] != '0'
    ensures NatToDigits(DigitsValue(d)) == d
    decreases |d|
  {
    if |d| > 1 {
      var p := d[..|d| - 1];
      CanonicalDigits(p);
      LeadingDigitPositive(d);
      assert DigitsValue(d) / 10 == DigitsValue(p);
      assert DigitsValue(d) % 10 == d[|d| - 1] as int - '0' as int;
      assert DigitChar(DigitsValue(d) % 10) == d[|d| - 1];
      assert d == p + [d[|d| - 1]];
    } else {
      assert d[..0] == [];
      assert DigitsValue(d) == d[0] as int - '0' as int;
      assert d == [DigitChar(DigitsValue(d))];
    }
  }

  /** A number written with two or more digits, the first one not zero, is at least 10. */
  lemma {:induction false} LeadingDigitPositive(d: string)
    requires |d| >= 2 && AllDigits(d) && d[0] != '0'
    ensures DigitsValue(d) >= 10
    decreases |d|
  {
    var p := d[..|d| - 1];
    if |p| >= 2 {
      LeadingDigitPositive(p);
    } else {
      assert p[0] == d[0];
    }
  }

  function Zeros(k: nat): (s: string)
    ensures |s| == k && AllDigits(s)
  {
    seq(k, _ => '0')
  }

  /** A custom-format field such as "MM" or "yyyy": the digits of `n`
      left-padded with zeros to at least `width` characters. The value reads
      back, and a value below 10^width fills exactly `width` (at least 1) characters. */
  function PadDigits(n: nat, width: nat): (s: string)
    ensures AllDigits(s) && DigitsValue(s) == n
    ensures |s| >= width
    ensures width >= 1 && n < Pow10(width) ==> |s| == width
  {
    var d := NatToDigits(n);
    if width >= 1 && n < Pow10(width) then DigitsFit(n, width); Pad(d, width)
    else Pad(d, width)
  }

  function Pad(d: string, width: nat): (s: string)
    requires AllDigits(d)
    ensures AllDigits(s) && DigitsValue(s) == DigitsValue(d)
    ensures |s| == if |d| < width then width else |d|
  {
    if |d| < width then ZerosPrefix(Zeros(width - |d|), d); Zeros(width - |d|) + d else d
  }

  function Pow10(k: nat): (p: nat)
    ensures p >= 1
  {
    if k == 0 then 1 else 10 * Pow10(k - 1)
  }

  /** A value below 10^width takes at most `width` digits. */
  lemma {:induction false} DigitsFit(n: nat, width: nat)
    requires width >= 1 && n < Pow10(width)
    ensures |NatToDigits(n)| <= width
    decreases n
  {
    if n >= 10 {
      assert width >= 2;
      assert n / 10 < Pow10(width - 1);
      DigitsFit(n / 10, width - 1);
      assert |NatToDigits(n)| == |NatToDigits(n / 10)| + 1;
    }
  }

  /** Leading zeros do not change the value of a digit string. */
  lemma {:induction false} ZerosPrefix(z: string, d: string)
    requires AllDigits(d) && AllDigits(z)
    requires forall i :: 0 <= i < |z| ==> z[i] == '0'
    ensures AllDigits(z + d) && DigitsValue(z + d) == DigitsValue(d)
    decreases |d|
  {
    if d == [] {
      assert z + d == z;
      AllZeros(z);
    } else {
      ZerosPrefix(z, d[..|d| - 1]);
      assert (z + d)[..|z + d| - 1] == z + d[..|d| - 1];
    }
  }

  lemma {:induction false} AllZeros(z: string)
    requires AllDigits(z)
    requires forall i :: 0 <= i < |z| ==> z[i] == '0'
    ensures DigitsValue(z) == 0
    decreases |z|
  {
    if z != [] {
      AllZeros(z[..|z| - 1]);
    }
  }
}
