/**
 Decimal numbers as Python's `decimal` holds them, an unscaled integer and an exponent, and how the
 strategies spell them in a payload (alphalab_bridge/strategies.py): a value exactly, by `str`, and a
 parameter in one spelling only, by `_canonical`.
 */
module Decimals {
  import opened Numerals

  datatype Decimal = Decimal(unscaled: int, exponent: int)

  // ----- values -----

  function Ten(k: nat): (p: nat)
    ensures p >= 1
  {
    if k == 0 then 1 else 10 * Ten(k - 1)
  }

  /** Ten to the power `e`. */
  function Power(e: int): (p: real)
    ensures p > 0.0
    decreases if e < 0 then -e else e
  {
    if e == 0 then 1.0 else if e > 0 then 10.0 * Power(e - 1) else Power(e + 1) / 10.0
  }

  /** The number a decimal stands for. */
  function Value(d: Decimal): real {
    d.unscaled as real * Power(d.exponent)
  }

  lemma {:induction false} PowerStep(e: int)
    ensures Power(e + 1) == 10.0 * Power(e)
  {
  }

  /** Ten times as many units, of a tenth the size. */
  lemma Shift(u: int, e: int)
    ensures Value(Decimal(u * 10, e)) == Value(Decimal(u, e + 1))
  {
    PowerStep(e);
    assert (u * 10) as real == u as real * 10.0;
    Regroup(u as real, 10.0, Power(e));
  }

  lemma Regroup(a: real, b: real, c: real)
    ensures a * (b * c) == (a * b) * c
  {
  }

  lemma {:induction false} Shifts(v: int, e: int, k: nat)
    ensures Value(Decimal(v * Ten(k), e)) == Value(Decimal(v, e + k))
    decreases k
  {
    if k > 0 {
      Shifts(v, e + 1, k - 1);
      assert v * Ten(k) == (v * Ten(k - 1)) * 10;
      Shift(v * Ten(k - 1), e);
    }
  }

  lemma Cancel(a: real, b: real, p: real)
    requires p > 0.0
    ensures a * p == b * p <==> a == b
  {
    if a * p == b * p {
      assert (a - b) * p == 0.0;
    }
  }

  lemma SameUnits(u: int, w: int, e: int)
    ensures Value(Decimal(u, e)) == Value(Decimal(w, e)) <==> u == w
  {
    Cancel(u as real, w as real, Power(e));
  }

  /** Two decimals whose exponents are `k` apart, compared as integers. */
  lemma ValuesCompare(u: int, v: int, e: int, k: nat)
    ensures Value(Decimal(u, e)) == Value(Decimal(v, e + k)) <==> u == v * Ten(k)
  {
    Shifts(v, e, k);
    SameUnits(u, v * Ten(k), e);
  }

  // ----- one form for each number -----

  /** `normalize()`: no trailing zeros, and zero itself without an exponent. */
  function Normalized(d: Decimal): (n: Decimal)
    decreases if d.unscaled < 0 then -d.unscaled else d.unscaled
  {
    if d.unscaled == 0 then Decimal(0, 0)
    else if d.unscaled % 10 == 0 then Normalized(Decimal(d.unscaled / 10, d.exponent + 1))
    else d
  }

  predicate Normal(d: Decimal) {
    d == Decimal(0, 0) || d.unscaled % 10 != 0
  }

  lemma {:induction false} NormalizedKeeps(d: Decimal)
    ensures Normal(Normalized(d)) && Value(Normalized(d)) == Value(d)
    decreases if d.unscaled < 0 then -d.unscaled else d.unscaled
  {
    if d.unscaled != 0 && d.unscaled % 10 == 0 {
      NormalizedKeeps(Decimal(d.unscaled / 10, d.exponent + 1));
      ValuesCompare(d.unscaled, d.unscaled / 10, d.exponent, 1);
      assert Ten(1) == 10;
    }
  }

  lemma TenMultiple(u: int, v: int, k: nat)
    requires u == v * Ten(k) && k > 0
    ensures u % 10 == 0 && (u == 0 ==> v == 0)
  {
    TenIn(v, Ten(k - 1));
    SignOfProduct(v, Ten(k));
  }

  lemma TenIn(v: int, t: nat)
    ensures v * (10 * t) == 10 * (v * t) && (v * (10 * t)) % 10 == 0
  {
    assert v * (10 * t) == 10 * (v * t);
  }

  lemma {:induction false} ProductGrows(n: nat, t: nat)
    requires t >= 1
    ensures n * t >= n
  {
    if n > 0 {
      ProductGrows(n - 1, t);
      assert n * t == (n - 1) * t + t;
    }
  }

  lemma SignOfProduct(n: int, t: nat)
    requires t >= 1
    ensures Abs(n * t) == Abs(n) * t && (n * t < 0 <==> n < 0) && (n * t == 0 <==> n == 0)
  {
    ProductGrows(Abs(n), t);
    if n < 0 {
      assert -n * t == -(n * t);
    }
  }

  function Abs(n: int): nat {
    if n < 0 then -n else n
  }

  lemma NormalUniqueFrom(x: Decimal, y: Decimal)
    requires Normal(x) && Normal(y) && Value(x) == Value(y) && x.exponent <= y.exponent
    ensures x == y
  {
    var k := y.exponent - x.exponent;
    ValuesCompare(x.unscaled, y.unscaled, x.exponent, k);
    if k > 0 {
      TenMultiple(x.unscaled, y.unscaled, k);
    }
  }

  /** Equal numbers, and no others, have the same normal form. */
  lemma NormalizedExactly(x: Decimal, y: Decimal)
    ensures Normalized(x) == Normalized(y) <==> Value(x) == Value(y)
  {
    NormalizedKeeps(x);
    NormalizedKeeps(y);
    if Value(x) == Value(y) {
      if Normalized(x).exponent <= Normalized(y).exponent {
        NormalUniqueFrom(Normalized(x), Normalized(y));
      } else {
        NormalUniqueFrom(Normalized(y), Normalized(x));
      }
    }
  }

  // ----- spelling -----

  function Zeros(k: nat): (z: string)
    ensures |z| == k && forall i :: 0 <= i < k ==> z[i] == '0'
  {
    seq(k, _ => '0')
  }

  function Sign(n: int): string {
    if n < 0 then ['-'] else []
  }

  /** `digits` with the point after the first `place` of them. */
  function Pointed(digits: string, place: int): string {
    if place <= 0 then ['0'] + (['.'] + (Zeros(-place) + digits))
    else if place >= |digits| then digits + Zeros(place - |digits|)
    else digits[..place] + (['.'] + digits[place..])
  }

  /** `%+d`. */
  function Signed(n: int): string {
    (if n < 0 then ['-'] else ['+']) + Digits(Abs(n))
  }

  /** `str(value)` without its sign: plain where that is short, in scientific notation otherwise. */
  function Unsigned(d: Decimal): string {
    var digits := Digits(Abs(d.unscaled));
    var left := d.exponent + |digits|;
    if d.exponent <= 0 && left > -6 then Pointed(digits, left)
    else Pointed(digits, 1) + (if left == 1 then [] else ['E'] + Signed(left - 1))
  }

  function Text(d: Decimal): string {
    Sign(d.unscaled) + Unsigned(d)
  }

  /** `format(value, "f")`: never in scientific notation. */
  function Fixed(d: Decimal): string {
    var digits := Digits(Abs(d.unscaled));
    Sign(d.unscaled) + Pointed(digits, d.exponent + |digits|)
  }

  /** `_canonical`. */
  function Canonical(d: Decimal): string {
    Fixed(Normalized(d))
  }

  // ----- reading -----

  predicate IsDigit(c: char) {
    '0' <= c <= '9'
  }

  predicate AllDigits(s: string) {
    forall i :: 0 <= i < |s| ==> IsDigit(s[i])
  }

  /** Where `c` first stands in `u`, or the end. */
  function Find(c: char, u: string): (k: nat)
    ensures k <= |u|
  {
    if u == "" || u[0] == c then 0 else 1 + Find(c, u[1..])
  }

  lemma {:induction false} FindStops(c: char, w: string, x: string)
    requires c !in w && (x == "" || x[0] == c)
    ensures Find(c, w + x) == |w|
    decreases |w|
  {
    if w == "" {
      assert w + x == x;
    } else {
      assert (w + x)[1..] == w[1..] + x;
      FindStops(c, w[1..], x);
    }
  }

  /** Digits, perhaps with a point among them. */
  function ReadMantissa(m: string): Decimal {
    var k := Find('.', m);
    if k == |m| then Decimal(DigitsValue(m), 0)
    else Decimal(DigitsValue(m[..k] + m[k + 1..]), -(|m| - k - 1))
  }

  /** The exponent part, if there is one. */
  function ReadExponent(u: string): int {
    if |u| < 2 then 0 else if u[1] == '-' then -DigitsValue(u[2..]) else DigitsValue(u[2..])
  }

  function ReadUnsigned(u: string): Decimal {
    var e := Find('E', u);
    var d := ReadMantissa(u[..e]);
    d.(exponent := d.exponent + ReadExponent(u[e..]))
  }

  /** `Decimal(text)`, for a text that spells a finite number. */
  function Read(u: string): Decimal {
    if u != "" && u[0] == '-' then
      var d := ReadUnsigned(u[1..]);
      d.(unscaled := -d.unscaled)
    else ReadUnsigned(u)
  }

  // ----- reading back -----

  lemma {:induction false} LeadingZeros(k: nat, ds: string)
    ensures DigitsValue(Zeros(k) + ds) == DigitsValue(ds)
    decreases |ds|, k
  {
    if ds != "" {
      LeadingZeros(k, ds[..|ds| - 1]);
      assert (Zeros(k) + ds)[..k + |ds| - 1] == Zeros(k) + ds[..|ds| - 1];
    } else if k > 0 {
      LeadingZeros(k - 1, ds);
      assert (Zeros(k) + ds)[..k - 1] == Zeros(k - 1) + ds;
    } else {
      assert Zeros(k) + ds == ds;
    }
  }

  lemma {:induction false} TrailingZeros(ds: string, k: nat)
    ensures DigitsValue(ds + Zeros(k)) == DigitsValue(ds) * Ten(k)
    decreases k
  {
    if k == 0 {
      assert ds + Zeros(k) == ds;
    } else {
      TrailingZeros(ds, k - 1);
      assert (ds + Zeros(k))[..|ds| + k - 1] == ds + Zeros(k - 1);
    }
  }

  lemma ReadTail(m: string, tail: string)
    requires 'E' !in m && (tail == "" || tail[0] == 'E')
    ensures ReadUnsigned(m + tail) == ReadMantissa(m).(exponent := ReadMantissa(m).exponent + ReadExponent(tail))
  {
    FindStops('E', m, tail);
    assert (m + tail)[..|m|] == m && (m + tail)[|m|..] == tail;
  }

  lemma ReadWhole(whole: string)
    requires '.' !in whole
    ensures ReadMantissa(whole) == Decimal(DigitsValue(whole), 0)
  {
    FindStops('.', whole, "");
    assert whole + "" == whole;
  }

  lemma ReadHalves(whole: string, fraction: string)
    requires '.' !in whole
    ensures ReadMantissa(whole + (['.'] + fraction)) == Decimal(DigitsValue(whole + fraction), -|fraction|)
  {
    FindStops('.', whole, ['.'] + fraction);
    var m := whole + (['.'] + fraction);
    assert m[..|whole|] == whole && m[|whole| + 1..] == fraction;
  }

  lemma SignedReadBack(n: int)
    ensures ReadExponent(['E'] + Signed(n)) == n && |Signed(n)| >= 2
  {
    DigitsReadBack(Abs(n));
    assert (['E'] + Signed(n))[2..] == Digits(Abs(n));
  }

  function Scaled(digits: string, place: int): Decimal {
    if place > |digits| then Decimal(DigitsValue(digits) * Ten(place - |digits|), 0)
    else Decimal(DigitsValue(digits), place - |digits|)
  }

  lemma ReadSmall(digits: string, zeros: nat, m: string)
    requires AllDigits(digits) && m == ['0'] + (['.'] + (Zeros(zeros) + digits))
    ensures ReadMantissa(m) == Decimal(DigitsValue(digits), -(zeros + |digits|))
  {
    ReadHalves(['0'], Zeros(zeros) + digits);
    ZeroMore(zeros, digits);
    LeadingZeros(zeros + 1, digits);
  }

  lemma ReadLarge(digits: string, zeros: nat)
    requires AllDigits(digits)
    ensures ReadMantissa(digits + Zeros(zeros)) == Decimal(DigitsValue(digits) * Ten(zeros), 0)
  {
    ReadWhole(digits + Zeros(zeros));
    TrailingZeros(digits, zeros);
  }

  lemma ReadInside(digits: string, whole: string, fraction: string)
    requires AllDigits(digits) && whole + fraction == digits
    ensures ReadMantissa(whole + (['.'] + fraction)) == Decimal(DigitsValue(digits), |whole| - |digits|)
  {
    NoPoint(digits, whole, fraction);
    ReadHalves(whole, fraction);
  }

  lemma NoPoint(digits: string, whole: string, fraction: string)
    requires AllDigits(digits) && whole + fraction == digits
    ensures '.' !in whole
  {
    forall i | 0 <= i < |whole| ensures IsDigit(whole[i]) {
      assert digits[i] == whole[i];
    }
  }

  lemma ReadPointedInside(digits: string, place: int)
    requires AllDigits(digits) && 0 < place < |digits|
    ensures ReadMantissa(Pointed(digits, place)) == Decimal(DigitsValue(digits), place - |digits|)
  {
    PointedInside(digits, place);
    ReadInside(digits, digits[..place], digits[place..]);
  }

  lemma ReadPointedSmall(digits: string, place: int, zeros: nat)
    requires AllDigits(digits) && place + zeros == 0
    ensures ReadMantissa(Pointed(digits, place)) == Decimal(DigitsValue(digits), place - |digits|)
  {
    SmallIs(digits, place, zeros);
    ReadSmall(digits, zeros, Pointed(digits, place));
  }

  /** A pointed text reads as its digits, scaled by where the point stands. */
  lemma ReadPointed(digits: string, place: int)
    requires digits != "" && AllDigits(digits)
    ensures ReadMantissa(Pointed(digits, place)) == Scaled(digits, place)
  {
    if place <= 0 {
      ReadPointedSmall(digits, place, -place);
    } else if place >= |digits| {
      ReadLarge(digits, place - |digits|);
    } else {
      ReadPointedInside(digits, place);
    }
  }

  lemma ZeroMore(k: nat, digits: string)
    ensures ['0'] + (Zeros(k) + digits) == Zeros(k + 1) + digits
  {
    assert ['0'] + Zeros(k) == Zeros(k + 1);
    assert ['0'] + (Zeros(k) + digits) == (['0'] + Zeros(k)) + digits;
  }

  lemma SmallIs(digits: string, place: int, zeros: nat)
    requires place + zeros == 0
    ensures Pointed(digits, place) == ['0'] + (['.'] + (Zeros(zeros) + digits))
  {
  }

  lemma PointedInside(digits: string, place: int)
    requires 0 < place < |digits|
    ensures Pointed(digits, place) == digits[..place] + (['.'] + digits[place..])
    ensures digits[..place] + digits[place..] == digits
  {
  }

  lemma PointedPlain(digits: string, place: int)
    requires digits != "" && AllDigits(digits)
    ensures 'E' !in Pointed(digits, place) && Pointed(digits, place) != "" && IsDigit(Pointed(digits, place)[0])
  {
  }

  lemma ReadSign(n: int, body: string, d: Decimal)
    requires body != "" && IsDigit(body[0]) && ReadUnsigned(body) == d && d.unscaled == Abs(n)
    ensures Read(Sign(n) + body) == d.(unscaled := n)
  {
    if n < 0 {
      assert (Sign(n) + body)[1..] == body;
    } else {
      assert Sign(n) + body == body;
    }
  }

  /** A text, and what it is read as when a tail follows it. */
  lemma ReadBody(digits: string, place: int, tail: string)
    requires digits != "" && AllDigits(digits) && (tail == "" || tail[0] == 'E')
    ensures var body := Pointed(digits, place) + tail;
            && body != "" && IsDigit(body[0])
            && ReadUnsigned(body) == Scaled(digits, place).(exponent := Scaled(digits, place).exponent + ReadExponent(tail))
  {
    ReadPointed(digits, place);
    PointedPlain(digits, place);
    ReadTail(Pointed(digits, place), tail);
  }

  lemma PlainBody(digits: string, place: int)
    requires digits != "" && AllDigits(digits)
    ensures Pointed(digits, place) != "" && IsDigit(Pointed(digits, place)[0])
    ensures ReadUnsigned(Pointed(digits, place)) == Scaled(digits, place)
  {
    ReadBody(digits, place, "");
    assert Pointed(digits, place) + "" == Pointed(digits, place);
  }

  lemma ScientificBody(digits: string, shift: int)
    requires digits != "" && AllDigits(digits)
    ensures var body := Pointed(digits, 1) + (if shift == 0 then [] else ['E'] + Signed(shift));
            body != "" && IsDigit(body[0]) && ReadUnsigned(body) == Decimal(DigitsValue(digits), 1 - |digits| + shift)
  {
    SignedReadBack(shift);
    ReadBody(digits, 1, if shift == 0 then [] else ['E'] + Signed(shift));
  }

  lemma UnsignedReadBack(d: Decimal)
    ensures Unsigned(d) != "" && IsDigit(Unsigned(d)[0])
    ensures ReadUnsigned(Unsigned(d)) == Decimal(Abs(d.unscaled), d.exponent)
  {
    var digits := Digits(Abs(d.unscaled));
    DigitsReadBack(Abs(d.unscaled));
    if d.exponent <= 0 && d.exponent + |digits| > -6 {
      PlainBody(digits, d.exponent + |digits|);
    } else {
      ScientificBody(digits, d.exponent + |digits| - 1);
    }
  }

  /** Every decimal is read back exactly from its text, exponent included. */
  lemma TextReadBack(d: Decimal)
    ensures Read(Text(d)) == d
  {
    UnsignedReadBack(d);
    ReadSign(d.unscaled, Unsigned(d), Decimal(Abs(d.unscaled), d.exponent));
  }

  /** What a plain text is read as: never a positive exponent. */
  function Plain(d: Decimal): Decimal {
    if d.exponent > 0 then Decimal(d.unscaled * Ten(d.exponent), 0) else d
  }

  lemma PlainText(d: Decimal, digits: string)
    requires digits == Digits(Abs(d.unscaled))
    ensures digits != "" && AllDigits(digits) && DigitsValue(digits) == Abs(d.unscaled)
    ensures Scaled(digits, d.exponent + |digits|) == Plain(d).(unscaled := Abs(Plain(d).unscaled))
    ensures Sign(Plain(d).unscaled) == Sign(d.unscaled)
  {
    DigitsReadBack(Abs(d.unscaled));
    if d.exponent > 0 {
      SignOfProduct(d.unscaled, Ten(d.exponent));
    }
  }

  lemma SignedBody(d: Decimal, digits: string, place: int)
    requires digits != "" && AllDigits(digits) && Scaled(digits, place) == d.(unscaled := Abs(d.unscaled))
    ensures Read(Sign(d.unscaled) + Pointed(digits, place)) == d
  {
    PlainBody(digits, place);
    ReadSign(d.unscaled, Pointed(digits, place), Scaled(digits, place));
  }

  lemma FixedReadBack(d: Decimal)
    ensures Read(Fixed(d)) == Plain(d)
  {
    var digits := Digits(Abs(d.unscaled));
    PlainText(d, digits);
    SignedBody(Plain(d), digits, d.exponent + |digits|);
  }

  lemma PlainKeepsValue(d: Decimal)
    ensures Value(Plain(d)) == Value(d)
  {
    if d.exponent > 0 {
      ValuesCompare(d.unscaled * Ten(d.exponent), d.unscaled, 0, d.exponent);
    }
  }

  /** A parameter has one spelling: two are spelled the same exactly when they are the same number. */
  lemma CanonicalExactly(x: Decimal, y: Decimal)
    ensures Canonical(x) == Canonical(y) <==> Value(x) == Value(y)
  {
    NormalizedExactly(x, y);
    NormalizedKeeps(x);
    NormalizedKeeps(y);
    FixedReadBack(Normalized(x));
    FixedReadBack(Normalized(y));
    PlainKeepsValue(Normalized(x));
    PlainKeepsValue(Normalized(y));
  }

  /** The text is plain exactly when it has no zeros to add and at most six to put before the digits. */
  lemma PlainExactly(d: Decimal)
    ensures 'E' !in Text(d) <==> d.exponent <= 0 && d.exponent + |Digits(Abs(d.unscaled))| - 1 >= -6
  {
    var digits := Digits(Abs(d.unscaled));
    var left := d.exponent + |digits|;
    DigitsReadBack(Abs(d.unscaled));
    PlainAnyhow(digits, left);
    if !(d.exponent <= 0 && left > -6) {
      assert Text(d)[|Sign(d.unscaled)| + |Pointed(digits, 1)|] == 'E';
    }
  }

  lemma PlainAnyhow(digits: string, left: int)
    requires digits != "" && AllDigits(digits)
    ensures 'E' !in Pointed(digits, left) && 'E' !in Pointed(digits, 1)
  {
    PointedPlain(digits, left);
    PointedPlain(digits, 1);
  }

  lemma LastDigit(n: nat)
    ensures |Digits(n)| > 0 && Digits(n)[|Digits(n)| - 1] == (48 + n % 10) as char
  {
  }

  lemma PointedLast(digits: string, place: int)
    requires digits != "" && AllDigits(digits) && '.' in Pointed(digits, place)
    ensures Pointed(digits, place)[|Pointed(digits, place)| - 1] == digits[|digits| - 1]
  {
  }

  lemma ZeroIsPlain()
    ensures Digits(0) == "0" && '.' !in Pointed("0", 1)
  {
    assert Pointed("0", 1) == "0" + Zeros(0);
  }

  lemma LastNotZero(u: int)
    requires u % 10 != 0
    ensures |Digits(Abs(u))| > 0 && Digits(Abs(u))[|Digits(Abs(u))| - 1] != '0'
  {
    LastDigit(Abs(u));
  }

  lemma PointedEndsWell(n: Decimal, digits: string, place: int)
    requires Normal(n) && digits == Digits(Abs(n.unscaled)) && AllDigits(digits)
    requires n == Decimal(0, 0) ==> place == 1
    ensures '.' in Pointed(digits, place) ==> Pointed(digits, place)[|Pointed(digits, place)| - 1] != '0'
  {
    if n == Decimal(0, 0) {
      ZeroIsPlain();
    } else if '.' in Pointed(digits, place) {
      LastNotZero(n.unscaled);
      PointedLast(digits, place);
    }
  }

  lemma FixedIsPlain(n: Decimal)
    requires Normal(n)
    ensures 'E' !in Fixed(n)
    ensures '.' in Fixed(n) ==> Fixed(n)[|Fixed(n)| - 1] != '0'
  {
    var digits := Digits(Abs(n.unscaled));
    DigitsReadBack(Abs(n.unscaled));
    PointedPlain(digits, n.exponent + |digits|);
    PointedEndsWell(n, digits, n.exponent + |digits|);
  }

  /** A parameter's spelling is a plain text of its number, and never ends in zeros behind a point. */
  lemma CanonicalIsPlain(d: Decimal)
    ensures 'E' !in Canonical(d) && Value(Read(Canonical(d))) == Value(d)
    ensures '.' in Canonical(d) ==> Canonical(d)[|Canonical(d)| - 1] != '0'
  {
    NormalizedKeeps(d);
    FixedReadBack(Normalized(d));
    PlainKeepsValue(Normalized(d));
    FixedIsPlain(Normalized(d));
  }
}
