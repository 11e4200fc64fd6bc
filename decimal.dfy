/**
 * Decimal rendering of integers, as JavaScript's `String(n)` (and a template
 * literal `${n}`) produces it for an integral number of magnitude below 2^53,
 * which a double holds exactly: an optional minus sign followed by the digits
 * of the magnitude, without leading zeros.
 */
module Decimal {
  import opened Wrappers

  predicate IsDigit(c: char) { '0' <= c <= '9' }

  function DigitChar(d: int): (c: char)
    requires 0 <= d < 10
    ensures IsDigit(c) && c as int - '0' as int == d
  {
    ('0' as int + d) as char
  }

  /** The digits of `n`, most significant first. */
  function NatToDecimal(n: nat): (s: string)
    ensures |s| >= 1
    ensures forall i :: 0 <= i < |s| ==> IsDigit(s[i])
    ensures s[0] == '0' ==> n == 0 && s == "0"
  {
    if n < 10 then [DigitChar(n)] else NatToDecimal(n / 10) + [DigitChar(n % 10)]
  }

  function IntToDecimal(n: int): (s: string)
    ensures |s| >= 1
    ensures s[0] == '-' <==> n < 0
  {
    if n < 0 then "-" + NatToDecimal(-n) else NatToDecimal(n)
  }

  /** Reads a non-empty digit string back as a number. */
  function ParseNat(s: string): (r: Option<nat>)
    ensures r.Some? <==> |s| >= 1 && forall i :: 0 <= i < |s| ==> IsDigit(s[i])
  {
    if s == [] then None
    else if !IsDigit(s[|s| - 1]) then None
    else if |s| == 1 then Some(s[0] as int - '0' as int)
    else match ParseNat(s[..|s| - 1])
      case None => None
      case Some(m) => Some(10 * m + (s[|s| - 1] as int - '0' as int))
  }

  /** Reads back what `IntToDecimal` writes: a minus sign is only allowed on a non-zero magnitude. */
  function ParseInt(s: string): (r: Option<int>)
    ensures r.Some? ==> (r.value < 0 <==> |s| >= 2 && s[0] == '-')
  {
    if |s| >= 1 && s[0] == '-' then
      match ParseNat(s[1..])
      case Some(m) => if m == 0 then None else Some(0 - m as int)
      case None => None
    else match ParseNat(s)
      case Some(m) => Some(m)
      case None => None
  }

  lemma {:induction false} ParseNatToDecimal(n: nat)
    ensures ParseNat(NatToDecimal(n)) == Some(n)
  {
    if n >= 10 {
      var s := NatToDecimal(n);
      ParseNatToDecimal(n / 10);
      assert s[..|s| - 1] == NatToDecimal(n / 10);
    }
  }

  /** The rendering is read back exactly, so distinct integers render differently. */
  lemma ParseIntToDecimal(n: int)
    ensures ParseInt(IntToDecimal(n)) == Some(n)
  {
    if n < 0 {
      var s := IntToDecimal(n);
      ParseNatToDecimal(-n);
      assert s[1..] == NatToDecimal(-n);
      assert ParseNat(s[1..]) == Some(-n);
    } else {
      ParseNatToDecimal(n);
      assert NatToDecimal(n)[0] != '-';
    }
  }

  lemma IntToDecimalInjective(m: int, n: int)
    ensures IntToDecimal(m) == IntToDecimal(n) ==> m == n
  {
    ParseIntToDecimal(m);
    ParseIntToDecimal(n);
  }
}
