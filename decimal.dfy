/**
 * Decimal numerals, as Rust's `Display` implementation for `i64` writes them
 * inside `format!("{}", ...)`: an optional leading '-' followed by the digits of
 * the magnitude, most significant first, with no leading zeros, no padding and
 * no digit grouping. The parsers are the partners of the printers: each printer
 * is proved to be inverted by its parser, and each canonical numeral to be the
 * printing of the value it parses to.
 */
module Decimal {
  import opened Wrappers

  predicate IsDigit(c: char) {
    '0' <= c <= '9'
  }

  predicate AllDigits(s: string) {
    forall i :: 0 <= i < |s| ==> IsDigit(s[i])
  }

  /** A numeral as the printer produces it: non-empty, digits only, no leading zero except "0" itself. */
  predicate IsCanonical(s: string) {
    |s| >= 1 && AllDigits(s) && (s[0] == '0' ==> |s| == 1)
  }

  /** A numeral as `i64`'s printer produces it: a canonical magnitude, with a '-'
      before it unless the magnitude is zero. */
  predicate IsCanonicalInt(s: string) {
    IsCanonical(s) || (|s| >= 2 && s[0] == '-' && s[1] != '0' && IsCanonical(s[1..]))
  }

  function DigitChar(d: nat): (c: char)
    requires d < 10
    ensures IsDigit(c) && DigitValue(c) == d
  {
    ('0' as int + d) as char
  }

  function DigitValue(c: char): (d: nat)
    requires IsDigit(c)
    ensures d < 10
  {
    c as int - '0' as int
  }

  /** The decimal digits of `n`, most significant first. */
  function NatToString(n: nat): (s: string)
    ensures IsCanonical(s)
    ensures |s| == 1 <==> n < 10
    ensures s[0] == '0' <==> n == 0
    decreases n
  {
    if n < 10 then [DigitChar(n)] else NatToString(n / 10) + [DigitChar(n % 10)]
  }

  /** The value of a string of digits, read most significant first. */
  function ParseNat(s: string): (n: nat)
    requires AllDigits(s)
    decreases |s|
  {
    if |s| == 0 then 0 else 10 * ParseNat(s[..|s| - 1]) + DigitValue(s[|s| - 1])
  }

  /** `i64`'s `Display`: a '-' before the magnitude of a negative value. */
  function IntToString(i: int): (s: string)
    ensures |s| >= 1
    ensures i < 0 <==> s[0] == '-'
    ensures i < 0 ==> IsCanonical(s[1..])
    ensures i >= 0 ==> IsCanonical(s)
    ensures IsCanonicalInt(s)
  {
    if i < 0 then "-" + NatToString(-i) else NatToString(i)
  }

  /** Reads back what `IntToString` writes; `None` for anything that is not a numeral. */
  function ParseInt(s: string): (r: Option<int>)
  {
    if |s| >= 2 && s[0] == '-' && AllDigits(s[1..]) then Some(-(ParseNat(s[1..]) as int))
    else if |s| >= 1 && AllDigits(s) then Some(ParseNat(s))
    else None
  }

  /** Parsing inverts printing for every natural number. */
  lemma {:induction false} ParseNatToString(n: nat)
    ensures ParseNat(NatToString(n)) == n
    decreases n
  {
    var s := NatToString(n);
    if n >= 10 {
      ParseNatToString(n / 10);
      assert s[..|s| - 1] == NatToString(n / 10);
    }
  }

  /** Printing inverts parsing for every canonical numeral. */
  lemma {:induction false} NatToStringParse(s: string)
    requires IsCanonical(s)
    ensures NatToString(ParseNat(s)) == s
    decreases |s|
  {
    if |s| > 1 {
      var init := s[..|s| - 1];
      assert IsCanonical(init);
      NatToStringParse(init);
      NonZeroParse(init);
      assert s == init + [s[|s| - 1]];
    }
  }

  /** A numeral whose first digit is not zero denotes a positive value. */
  lemma {:induction false} NonZeroParse(s: string)
    requires IsCanonical(s) && s[0] != '0'
    ensures ParseNat(s) >= 1
    decreases |s|
  {
    if |s| > 1 {
      NonZeroParse(s[..|s| - 1]);
    }
  }

  /** Two naturals print alike exactly when they are equal. */
  lemma NatToStringInjective(m: nat, n: nat)
    ensures NatToString(m) == NatToString(n) <==> m == n
  {
    ParseNatToString(m);
    ParseNatToString(n);
  }

  /** Parsing inverts printing for every integer, negative ones included. */
  lemma IntRoundTrip(i: int)
    ensures ParseInt(IntToString(i)) == Some(i)
  {
    var s := IntToString(i);
    if i < 0 {
      ParseNatToString(-i);
      assert s[1..] == NatToString(-i);
    } else {
      ParseNatToString(i);
    }
  }

  /** Printing inverts parsing for every canonical signed numeral: a canonical
      magnitude, with a '-' before it unless it is "0" ("-0" is never printed). */
  lemma IntToStringParse(s: string)
    requires IsCanonicalInt(s)
    ensures ParseInt(s).Some? && IntToString(ParseInt(s).value) == s
  {
    if s[0] == '-' {
      var m := s[1..];
      NatToStringParse(m);
      NonZeroParse(m);
      assert s == "-" + m;
    } else {
      NatToStringParse(s);
    }
  }
}
