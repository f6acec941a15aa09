/**
  The string formatting the clinic relies on: Python's `str(n)` for
  integers, the `02d` format specification, its inverse parse, and
  `str.replace(' ', '_')`.
*/
module Text {
  import opened Common

  predicate IsDigit(c: char) {
    '0' <= c <= '9'
  }

  predicate AllDigits(s: string) {
    forall i :: 0 <= i < |s| ==> IsDigit(s[i])
  }

  function DigitChar(d: nat): (c: char)
    requires d < 10
    ensures IsDigit(c) && c as int - '0' as int == d
  {
    ('0' as int + d) as char
  }

  function DigitValue(c: char): (d: nat)
    requires IsDigit(c)
    ensures d < 10
  {
    c as int - '0' as int
  }

  /** Python's `str(n)` for `n >= 0`: the shortest decimal numeral. */
  function NatToDecimal(n: nat): (s: string)
    ensures |s| >= 1 && AllDigits(s)
    ensures n < 10 <==> |s| == 1
    ensures s[0] == '0' <==> n == 0
  {
    if n < 10 then [DigitChar(n)] else NatToDecimal(n / 10) + [DigitChar(n % 10)]
  }

  /** The value of a numeral read left to right; the empty numeral reads as 0. */
  function DecimalValue(s: string): nat
    requires AllDigits(s)
  {
    if s == [] then 0 else DecimalValue(s[..|s| - 1]) * 10 + DigitValue(s[|s| - 1])
  }

  lemma {:induction false} NatToDecimalValue(n: nat)
    ensures DecimalValue(NatToDecimal(n)) == n
  {
    if n >= 10 {
      var s := NatToDecimal(n);
      assert s[..|s| - 1] == NatToDecimal(n / 10);
      NatToDecimalValue(n / 10);
    }
  }

  /** Python's `str(i)` for any integer: a minus sign, then the magnitude. */
  function IntToDecimal(i: int): (s: string)
    ensures |s| >= 1
    ensures forall j :: 1 <= j < |s| ==> IsDigit(s[j])
    ensures s[0] == '-' <==> i < 0
    ensures s[0] == '-' || IsDigit(s[0])
    ensures s[0] == '0' ==> |s| == 1
    ensures s[0] == '-' ==> |s| >= 2 && s[1] != '0'
  {
    if i < 0 then "-" + NatToDecimal(-i) else NatToDecimal(i)
  }

  /** Reads an optionally negative numeral; None for anything else. */
  function ParseInt(s: string): Option<int> {
    if |s| >= 2 && s[0] == '-' && AllDigits(s[1..]) then
      var magnitude: int := DecimalValue(s[1..]);
      Some(-magnitude)
    else if |s| >= 1 && AllDigits(s) then Some(DecimalValue(s))
    else None
  }

  lemma IntToDecimalRoundTrip(i: int)
    ensures ParseInt(IntToDecimal(i)) == Some(i)
  {
    var s := IntToDecimal(i);
    if i < 0 {
      var m := NatToDecimal(-i);
      assert s[1..] == m;
      NatToDecimalValue(-i);
      assert |s| >= 2 && s[0] == '-' && AllDigits(s[1..]);
    } else {
      assert s == NatToDecimal(i);
      NatToDecimalValue(i);
      assert !IsDigit('-');
    }
  }

  /**
    Python's `format(n, '02d')` for `n >= 0`: the numeral of n, padded on
    the left with zeros to at least two characters, and never padded
    beyond two.
  */
  function Pad2(n: nat): (s: string)
    ensures |s| >= 2 && AllDigits(s)
    ensures DecimalValue(s) == n
    ensures |s| > 2 ==> s[0] != '0'
  {
    NatToDecimalValue(n);
    if n < 10 then "0" + NatToDecimal(n) else NatToDecimal(n)
  }

  /** Python's `s.replace(' ', '_')`: every space becomes an underscore. */
  function ReplaceSpaces(s: string): (r: string)
    ensures |r| == |s|
    ensures forall i :: 0 <= i < |s| ==> r[i] == (if s[i] == ' ' then '_' else s[i])
  {
    if s == [] then [] else [if s[0] == ' ' then '_' else s[0]] + ReplaceSpaces(s[1..])
  }
}
