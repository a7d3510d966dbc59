/** Integers and their digit text: JavaScript's `String(n)` / template-literal
    rendering of an integer, `Number(s)` on decimal-integer text, and the digit
    values `parseInt` reads in base 10 or 16. */
module Decimal {
  import opened Common

  /** The value of `c` as a hexadecimal digit (`0-9`, `a-f`, `A-F`), if it is one. */
  function DigitOf(c: char): (d: Option<nat>)
    ensures d.Some? ==> d.value < 16
  {
    if '0' <= c <= '9' then Some(c as int - '0' as int)
    else if 'a' <= c <= 'f' then Some(c as int - 'a' as int + 10)
    else if 'A' <= c <= 'F' then Some(c as int - 'A' as int + 10)
    else None
  }

  predicate IsDigitIn(c: char, radix: nat) {
    DigitOf(c).Some? && DigitOf(c).value < radix
  }

  predicate AllDigitsIn(s: string, radix: nat) {
    forall i :: 0 <= i < |s| ==> IsDigitIn(s[i], radix)
  }

  /** The number that the digit string `s` denotes in base `radix`. */
  function ValueIn(s: string, radix: nat): nat
    requires AllDigitsIn(s, radix)
  {
    if |s| == 0 then 0
    else ValueIn(s[..|s| - 1], radix) * radix + DigitOf(s[|s| - 1]).value
  }

  function DecimalDigit(d: nat): (c: char)
    requires d < 10
    ensures IsDigitIn(c, 10) && DigitOf(c) == Some(d)
  {
    ('0' as int + d) as char
  }

  /** The decimal text of `n`, without leading zeros. */
  function NatToDecimal(n: nat): (s: string)
    ensures |s| >= 1 && AllDigitsIn(s, 10)
    ensures |s| > 1 ==> s[0] != '0'
  {
    if n < 10 then [DecimalDigit(n)]
    else NatToDecimal(n / 10) + [DecimalDigit(n % 10)]
  }

  /** How JavaScript renders an integer-valued number as text. */
  function IntToDecimal(n: int): string {
    if n < 0 then "-" + NatToDecimal(-n) else NatToDecimal(n)
  }

  /** JavaScript's `Number(s)` on text of the form `-?[0-9]+`; `None` for any other text. */
  function ParseDecimal(s: string): Option<int> {
    if |s| >= 2 && s[0] == '-' && AllDigitsIn(s[1..], 10) then Some(-(ValueIn(s[1..], 10) as int))
    else if |s| >= 1 && AllDigitsIn(s, 10) then Some(ValueIn(s, 10))
    else None
  }

  /** Reading back the decimal text of `n` gives `n`. */
  lemma {:induction false} NatToDecimalValue(n: nat)
    ensures ValueIn(NatToDecimal(n), 10) == n
  {
    if n >= 10 {
      NatToDecimalValue(n / 10);
      var s := NatToDecimal(n);
      assert s[..|s| - 1] == NatToDecimal(n / 10);
    }
  }

  /** `Number(String(n)) === n` for every integer `n`. */
  lemma ParseIntToDecimal(n: int)
    ensures ParseDecimal(IntToDecimal(n)) == Some(n)
  {
    var s := IntToDecimal(n);
    if n < 0 {
      assert s[1..] == NatToDecimal(-n);
      NatToDecimalValue(-n);
    } else {
      NatToDecimalValue(n);
      assert s[0] != '-';
    }
  }
}
