/** `int(host_port)`, the conversion the session manager applies to the host
    port the container runtime reports as text, when the record and the
    response are built. The URL uses that text unchanged. `DecimalString`,
    the canonical numeral of a number, is not applied by the source: it is here
    to state when the port in the URL and the stored port agree. */
module Decimal {
  import opened Wrappers

  predicate IsDigit(c: char) {
    '0' <= c <= '9'
  }

  predicate AllDigits(s: string) {
    forall i :: 0 <= i < |s| ==> IsDigit(s[i])
  }

  /** Value of a string of decimal digits, most significant digit first. */
  function DigitsValue(s: string): (n: nat)
    requires AllDigits(s)
    ensures |s| == 0 ==> n == 0
    decreases |s|
  {
    if |s| == 0 then 0
    else DigitsValue(s[..|s| - 1]) * 10 + (s[|s| - 1] as int - '0' as int)
  }

  /** `int(s)` restricted to plain decimal numerals: a non-empty string of
      ASCII digits parses, anything else is the ValueError case. */
  function ParseDecimal(s: string): (r: Option<nat>)
    ensures r.Some? <==> |s| > 0 && AllDigits(s)
  {
    if |s| > 0 && AllDigits(s) then Some(DigitsValue(s)) else None
  }

  function DigitChar(d: nat): (c: char)
    requires d < 10
    ensures IsDigit(c) && c as int - '0' as int == d
  {
    ('0' as int + d) as char
  }

  /** The canonical decimal numeral of `n`, as Python's `str(n)` writes it. */
  function DecimalString(n: nat): (s: string)
    ensures |s| > 0 && AllDigits(s)
    ensures |s| > 1 ==> s[0] != '0'
  {
    if n < 10 then [DigitChar(n)]
    else DecimalString(n / 10) + [DigitChar(n % 10)]
  }

  /** Parsing the numeral of a number gives the number back. */
  lemma {:induction false} ParseDecimalString(n: nat)
    ensures ParseDecimal(DecimalString(n)) == Some(n)
  {
    var s := DecimalString(n);
    if n < 10 {
      assert s[..|s| - 1] == [];
    } else {
      assert s[..|s| - 1] == DecimalString(n / 10);
      ParseDecimalString(n / 10);
    }
  }

  /** Writing a parsed numeral without leading zeros gives the numeral back. */
  lemma {:induction false} DecimalStringOfParse(s: string)
    requires |s| > 0 && AllDigits(s)
    requires |s| > 1 ==> s[0] != '0'
    ensures DecimalString(DigitsValue(s)) == s
    decreases |s|
  {
    var init, d := s[..|s| - 1], s[|s| - 1] as int - '0' as int;
    if |s| == 1 {
      assert DigitsValue(s) == d;
      assert s == [DigitChar(d)];
    } else {
      assert init[0] == s[0];
      DecimalStringOfParse(init);
      var n := DigitsValue(s);
      assert n == DigitsValue(init) * 10 + d;
      assert DigitsValue(init) > 0 by {
        if DigitsValue(init) == 0 { LeadingDigitZero(init); }
      }
      assert n / 10 == DigitsValue(init) && n % 10 == d;
      assert s == init + [DigitChar(d)];
    }
  }

  /** A numeral whose value is zero starts with the digit zero. */
  lemma {:induction false} LeadingDigitZero(s: string)
    requires |s| > 0 && AllDigits(s) && DigitsValue(s) == 0
    ensures s[0] == '0'
    decreases |s|
  {
    if |s| > 1 {
      assert s[..|s| - 1][0] == s[0];
      LeadingDigitZero(s[..|s| - 1]);
    }
  }
}
