/**
 The few PHP value semantics the logger depends on: a dynamically typed value,
 `isset`, the loose comparison `== '404'`, and the decimal rendering of an integer
 that string concatenation (`.`) performs.
 */
module Php {
  import opened Wrappers

  /** A scalar PHP value as it can sit in an object property or array slot. */
  datatype PhpValue = PNull | PBool(b: bool) | PInt(i: int) | PStr(s: string)

  /** `isset($x->p)`: the property exists and is not null. A missing property is
      represented as `PNull`, which `isset` treats the same way. */
  predicate IsSet(v: PhpValue)
  {
    !v.PNull?
  }

  /** PHP's loose comparison `v == '404'`. A boolean is compared with the string's
      truth value (`'404'` is truthy), an integer numerically, a string by its text. */
  predicate LooseEqualsText404(v: PhpValue)
  {
    match v
    case PNull => false
    case PBool(b) => b
    case PInt(i) => i == 404
    case PStr(s) => s == "404"
  }

  /** The characters '0' to '9'. */
  predicate IsDigit(ch: char)
  {
    '0' <= ch <= '9'
  }

  function DigitChar(d: nat): (ch: char)
    requires d < 10
    ensures IsDigit(ch)
  {
    "0123456789"[d]
  }

  function DigitValue(ch: char): nat
    requires IsDigit(ch)
  {
    (ch as int - '0' as int) as nat
  }

  predicate AllDigits(s: string)
  {
    forall i :: 0 <= i < |s| ==> IsDigit(s[i])
  }

  /** Decimal digits of a natural number, most significant first, with no leading zero. */
  function NatToDecimal(n: nat): (r: string)
    ensures |r| >= 1 && AllDigits(r)
    ensures |r| > 1 ==> r[0] != '0'
  {
    if n < 10 then [DigitChar(n)]
    else NatToDecimal(n / 10) + [DigitChar(n % 10)]
  }

  /** `(string)$i`: the decimal text of an integer, with a leading '-' when negative. */
  function IntToString(i: int): (r: string)
    ensures |r| >= 1
  {
    if i < 0 then "-" + NatToDecimal(-i) else NatToDecimal(i)
  }

  /** The value of a string of decimal digits. */
  function DecimalValue(s: string): nat
    requires AllDigits(s)
  {
    if |s| == 0 then 0 else DecimalValue(s[..|s| - 1]) * 10 + DigitValue(s[|s| - 1])
  }

  /** Reads an optionally '-'-signed run of decimal digits; the inverse of `IntToString`. */
  function ParseInt(s: string): Option<int>
  {
    if |s| >= 2 && s[0] == '-' && AllDigits(s[1..]) then Some(0 - DecimalValue(s[1..]) as int)
    else if |s| >= 1 && AllDigits(s) then Some(DecimalValue(s))
    else None
  }

  lemma {:induction false} DecimalRoundTrip(n: nat)
    ensures DecimalValue(NatToDecimal(n)) == n
    decreases n
  {
    if n >= 10 {
      DecimalRoundTrip(n / 10);
      var r := NatToDecimal(n);
      assert r[..|r| - 1] == NatToDecimal(n / 10);
    }
  }

  lemma {:induction false} NonNegativeRoundTrip(i: int)
    requires i >= 0
    ensures ParseInt(IntToString(i)) == Some(i)
  {
    var d := NatToDecimal(i);
    assert IntToString(i) == d;
    DecimalRoundTrip(i);
    assert IsDigit(d[0]);
  }

  lemma {:induction false} ParseNegative(d: string)
    requires |d| >= 1 && AllDigits(d)
    ensures ParseInt("-" + d) == Some(0 - DecimalValue(d) as int)
  {
    var s := "-" + d;
    assert s[0] == '-';
    assert s[1..] == d;
  }

  lemma {:induction false} NegativeRoundTrip(i: int)
    requires i < 0
    ensures ParseInt(IntToString(i)) == Some(i)
  {
    var n: nat := -i;
    var d := NatToDecimal(n);
    var s := "-" + d;
    assert IntToString(i) == s;
    DecimalRoundTrip(n);
    ParseNegative(d);
    var v: int := DecimalValue(d);
    assert v == n;
    assert ParseInt(s) == Some(0 - v);
  }

  /** Reading back the decimal text of any integer gives that integer. */
  lemma {:induction false} IntToStringRoundTrip(i: int)
    ensures ParseInt(IntToString(i)) == Some(i)
  {
    if i < 0 {
      NegativeRoundTrip(i);
    } else {
      NonNegativeRoundTrip(i);
    }
  }

  /** The decimal text of an integer contains only digits and a sign, so no
      separator such as ':' or a newline. */
  lemma {:induction false} IntToStringCharacters(i: int)
    ensures forall k :: 0 <= k < |IntToString(i)| ==> IsDigit(IntToString(i)[k]) || IntToString(i)[k] == '-'
    ensures ':' !in IntToString(i) && '\n' !in IntToString(i)
  {
    var r := IntToString(i);
    if i < 0 {
      assert forall k :: 1 <= k < |r| ==> r[k] == NatToDecimal(-i)[k - 1];
    }
  }

  /** Different integers have different decimal texts. */
  lemma {:induction false} IntToStringInjective(i: int, j: int)
    requires IntToString(i) == IntToString(j)
    ensures i == j
  {
    IntToStringRoundTrip(i);
    IntToStringRoundTrip(j);
  }

  /** The line number 42 renders as the text "42". */
  lemma {:induction false} FortyTwoText()
    ensures IntToString(42) == "42"
  {
    assert NatToDecimal(4) == "4";
    assert NatToDecimal(42) == NatToDecimal(4) + [DigitChar(2)];
  }
}
