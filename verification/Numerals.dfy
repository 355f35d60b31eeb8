/** Whole numbers written in decimal digits, and read back. */
module Numerals {

  function Digits(n: nat): string {
    if n < 10 then [(48 + n) as char] else Digits(n / 10) + [(48 + n % 10) as char]
  }

  function DigitsValue(ds: string): int {
    if ds == "" then 0 else 10 * DigitsValue(ds[..|ds| - 1]) + (ds[|ds| - 1] as int - 48)
  }

  lemma {:induction false} DigitsReadBack(n: nat)
    ensures DigitsValue(Digits(n)) == n
    ensures |Digits(n)| > 0 && forall i :: 0 <= i < |Digits(n)| ==> '0' <= Digits(n)[i] <= '9'
  {
    if n >= 10 {
      DigitsReadBack(n / 10);
      assert Digits(n)[..|Digits(n)| - 1] == Digits(n / 10);
    } else {
      assert Digits(n)[..0] == "";
    }
  }

  function Int(n: int): string {
    if n < 0 then ['-'] + Digits(-n) else Digits(n)
  }

  function IntValue(ds: string): int {
    if ds != "" && ds[0] == '-' then -DigitsValue(ds[1..]) else DigitsValue(ds)
  }

  predicate Numeral(c: char) {
    c == '-' || '0' <= c <= '9'
  }

  lemma IntReadBack(n: int)
    ensures IntValue(Int(n)) == n
    ensures |Int(n)| > 0 && forall i :: 0 <= i < |Int(n)| ==> Numeral(Int(n)[i])
  {
    DigitsReadBack(if n < 0 then -n else n);
    if n < 0 {
      assert Int(n)[1..] == Digits(-n);
    }
  }

  /** The longest numeral at the front of `u`. */
  function NumeralLength(u: string): (k: nat)
    ensures k <= |u|
  {
    if u == "" || !Numeral(u[0]) then 0 else 1 + NumeralLength(u[1..])
  }

  lemma {:induction false} NumeralStops(w: string, x: string)
    requires forall i :: 0 <= i < |w| ==> Numeral(w[i])
    requires x != "" && !Numeral(x[0])
    ensures NumeralLength(w + x) == |w|
    decreases |w|
  {
    if w == "" {
      assert w + x == x;
    } else {
      assert (w + x)[1..] == w[1..] + x;
      NumeralStops(w[1..], x);
    }
  }
}
