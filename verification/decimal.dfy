/**
 * Decimal numerals: Java's Integer.toString / Integer.parseInt and Python's
 * str() on non-negative integers.
 */
module Decimal {
  import opened Wrappers

  /** A Java `int`: the 32-bit two's complement range. */
  type Int32 = x: int | -0x8000_0000 <= x < 0x8000_0000

  predicate IsDigit(c: char) { '0' <= c <= '9' }

  predicate AllDigits(s: string) { forall i :: 0 <= i < |s| ==> IsDigit(s[i]) }

  function DigitChar(d: nat): (c: char)
    requires d < 10
    ensures IsDigit(c) && c as int - '0' as int == d
  {
    ('0' as int + d) as char
  }

  /** The decimal numeral of n, without leading zeros. */
  function NatToString(n: nat): (r: string)
    ensures |r| > 0 && AllDigits(r)
    ensures r[0] == '0' ==> n == 0
    decreases n
  {
    if n < 10 then [DigitChar(n)] else NatToString(n / 10) + [DigitChar(n % 10)]
  }

  /** The value of a string of decimal digits (0 for the empty string). */
  function DigitsValue(s: string): nat
    requires AllDigits(s)
  {
    if s == [] then 0 else 10 * DigitsValue(s[..|s| - 1]) + (s[|s| - 1] as int - '0' as int)
  }

  /** Reading back a numeral gives the number it was written from. */
  lemma {:induction false} DigitsValueOfNatToString(n: nat)
    ensures DigitsValue(NatToString(n)) == n
    decreases n
  {
    if n >= 10 {
      var s := NatToString(n);
      assert s[..|s| - 1] == NatToString(n / 10);
      DigitsValueOfNatToString(n / 10);
    }
  }

  /** More digits never stand for a smaller number. */
  lemma {:induction false} NatToStringLengthMonotone(a: nat, b: nat)
    requires a <= b
    ensures |NatToString(a)| <= |NatToString(b)|
    decreases b
  {
    if a >= 10 {
      NatToStringLengthMonotone(a / 10, b / 10);
    }
  }

  /** Java's Integer.toString: a minus sign for negative values, then the digits. */
  function IntToString(x: int): (r: string)
    ensures |r| > 0
    ensures forall i :: 0 <= i < |r| ==> IsDigit(r[i]) || r[i] == '-'
    ensures r[0] == '-' <==> x < 0
  {
    if x < 0 then "-" + NatToString(-x) else NatToString(x)
  }

  /**
   * Java's Integer.parseInt(s) on ASCII text: an optional '+' or '-', then
   * one or more digits '0'..'9', with a value inside the int range; anything
   * else is None where Java throws NumberFormatException. Java also accepts
   * the other Unicode decimal digits; this model does not.
   */
  function ParseInt(s: string): (r: Option<Int32>)
    ensures r.Some? ==> |s| > 0 && (IsDigit(s[0]) || s[0] == '-' || s[0] == '+')
    ensures s == "" ==> r.None?
  {
    if |s| == 0 then None
    else
      var body := if s[0] == '-' || s[0] == '+' then s[1..] else s;
      if |body| == 0 || !AllDigits(body) then None
      else
        var d: int := DigitsValue(body);
        var v := if s[0] == '-' then -d else d;
        if -0x8000_0000 <= v < 0x8000_0000 then Some(v) else None
  }

  /** Integer.parseInt(Integer.toString(x)) == x for every int x. */
  lemma ParseIntOfIntToString(x: Int32)
    ensures ParseInt(IntToString(x)) == Some(x)
  {
    var s := IntToString(x);
    if x < 0 {
      var magnitude: nat := -(x as int);
      var digits := NatToString(magnitude);
      assert s == "-" + digits;
      assert s[1..] == digits;
      DigitsValueOfNatToString(magnitude);
      assert DigitsValue(s[1..]) == magnitude;
    } else {
      var digits := NatToString(x);
      assert s == digits;
      assert s[0] != '-' && s[0] != '+' by { assert IsDigit(digits[0]); }
      DigitsValueOfNatToString(x);
      assert DigitsValue(s) == x;
    }
  }
}
