/**
 The Font Size menu: one item per size from 12 to 36 in steps of 4, labelled with
 `String.valueOf(size)`; choosing an item reads its label back with `Integer.parseInt`.
 */
module FontMenu {
  import opened Optional

  /** The range of a Java `int`. */
  const INT_MIN: int := -0x8000_0000
  const INT_MAX: int := 0x7FFF_FFFF

  /** The sizes the menu offers, in menu order. */
  const FONT_SIZES: seq<int> := [12, 16, 20, 24, 28, 32, 36]

  /** The sizes are exactly the multiples of 4 from 12 to 36. */
  lemma FontSizesExactly(n: int)
    ensures n in FONT_SIZES <==> 12 <= n <= 36 && n % 4 == 0
  {
  }

  predicate IsDigit(c: char) {
    '0' <= c <= '9'
  }

  predicate AllDigits(s: string) {
    forall k :: 0 <= k < |s| ==> IsDigit(s[k])
  }

  function DigitChar(d: int): (c: char)
    requires 0 <= d < 10
    ensures IsDigit(c)
  {
    (d + '0' as int) as char
  }

  function DigitValue(c: char): (d: int)
    requires IsDigit(c)
    ensures 0 <= d < 10 && DigitChar(d) == c
  {
    c as int - '0' as int
  }

  /** The decimal digits of `n`, most significant first; only 0 is written with a
      leading '0'. */
  function NatToDecimal(n: nat): (s: string)
    ensures s != [] && AllDigits(s)
    ensures s[0] == '0' <==> n == 0
    ensures n == 0 ==> s == "0"
  {
    if n < 10 then
      [DigitChar(n)]
    else
      var s := NatToDecimal(n / 10) + [DigitChar(n % 10)];
      assert s[0] == NatToDecimal(n / 10)[0];
      s
  }

  /** `String.valueOf(int)`: a '-' before the digits of a negative number. */
  function ValueOf(n: int): (r: string)
    ensures r != [] && (r[0] == '-' <==> n < 0)
    ensures n < 0 ==> |r| >= 2 && AllDigits(r[1..]) && r[1] != '0'
    ensures n >= 0 ==> AllDigits(r) && (r[0] == '0' <==> n == 0)
    ensures n == 0 ==> r == "0"
  {
    if n < 0 then "-" + NatToDecimal(-n) else NatToDecimal(n)
  }

  /** The number a string of decimal digits denotes, read left to right. */
  function DecimalValue(s: string): nat
    requires AllDigits(s)
  {
    if s == [] then 0 else DecimalValue(s[..|s| - 1]) * 10 + DigitValue(s[|s| - 1])
  }

  /** `Integer.parseInt(s)`: an optional '+' or '-', then at least one digit, and a
      value that fits an `int`; anything else throws, modelled as `None`. */
  function ParseInt(s: string): (r: Option<int>)
    ensures r.Some? ==> s != [] && INT_MIN <= r.value <= INT_MAX
    ensures r.Some? && s[0] != '-' ==> r.value >= 0
  {
    if s == [] then
      None
    else
      var negative := s[0] == '-';
      var digits := if s[0] == '-' || s[0] == '+' then s[1..] else s;
      if digits == [] || !AllDigits(digits) then
        None
      else
        var magnitude: int := DecimalValue(digits);
        var n := if negative then -magnitude else magnitude;
        if INT_MIN <= n <= INT_MAX then Some(n) else None
  }

  /** Reading back the digits of `n` gives `n`. */
  lemma {:induction false} DecimalRoundTrip(n: nat)
    ensures DecimalValue(NatToDecimal(n)) == n
  {
    if n >= 10 {
      var s := NatToDecimal(n);
      assert s[..|s| - 1] == NatToDecimal(n / 10);
      DecimalRoundTrip(n / 10);
    }
  }

  /** A plain run of digits parses to its value when that fits an `int`. */
  lemma ParseDigits(d: string)
    requires d != [] && AllDigits(d) && DecimalValue(d) <= INT_MAX
    ensures ParseInt(d) == Some(DecimalValue(d))
  {
    assert IsDigit(d[0]);
  }

  /** A '-' before a run of digits parses to minus its value when that fits an `int`. */
  lemma ParseNegatedDigits(d: string)
    requires d != [] && AllDigits(d) && DecimalValue(d) <= -INT_MIN
    ensures ParseInt("-" + d) == Some(-(DecimalValue(d) as int))
  {
    assert ("-" + d)[1..] == d;
  }

  /** `Integer.parseInt(String.valueOf(n)) == n` for every `int` n. */
  lemma ParseValueOf(n: int)
    requires INT_MIN <= n <= INT_MAX
    ensures ParseInt(ValueOf(n)) == Some(n)
  {
    if n < 0 {
      DecimalRoundTrip(-n);
      ParseNegatedDigits(NatToDecimal(-n));
    } else {
      DecimalRoundTrip(n);
      ParseDigits(NatToDecimal(n));
    }
  }

  /** Every label of the Font Size menu parses back to its size. */
  lemma FontLabelsParse()
    ensures forall i :: 0 <= i < |FONT_SIZES| ==> ParseInt(ValueOf(FONT_SIZES[i])) == Some(FONT_SIZES[i])
  {
    forall i | 0 <= i < |FONT_SIZES|
      ensures ParseInt(ValueOf(FONT_SIZES[i])) == Some(FONT_SIZES[i])
    {
      ParseValueOf(FONT_SIZES[i]);
    }
  }

  /** The loop that fills the Font Size menu: one label per size, in order, each of which
      parses back to its size. */
  method BuildFontMenu() returns (labels: seq<string>)
    ensures |labels| == |FONT_SIZES|
    ensures forall i :: 0 <= i < |labels| ==> labels[i] == ValueOf(FONT_SIZES[i])
    ensures forall i :: 0 <= i < |labels| ==> ParseInt(labels[i]) == Some(FONT_SIZES[i])
  {
    labels := [];
    var size := 12;
    while size <= 36
      invariant 12 <= size <= 40 && size == 12 + 4 * |labels|
      invariant forall i :: 0 <= i < |labels| ==> labels[i] == ValueOf(FONT_SIZES[i])
    {
      assert FONT_SIZES[|labels|] == size;
      labels := labels + [ValueOf(size)];
      size := size + 4;
    }
    FontLabelsParse();
  }
}
