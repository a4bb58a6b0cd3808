/** Whole numbers in decimal: what V writes for an `i64`, and how JSON reads it (section 6 of RFC 8259). */
module Decimals {
  import opened Options
  import opened Base64
  import opened VInt

  const ZERO: bv8 := 48

  predicate IsDigit(c: bv8) {
    48 <= c <= 57
  }

  function Digit(d: nat): bv8
    requires d < 10
  {
    ZERO + d as bv8
  }

  ghost function DigitValue(c: bv8): (d: nat)
    ensures d < 10
  {
    match c
    case 49 => 1 case 50 => 2 case 51 => 3 case 52 => 4 case 53 => 5 case 54 => 6 case 55 => 7 case 56 => 8 case 57 => 9
    case _ => 0
  }

  function Natural(n: nat): Bytes {
    (if n < 10 then [] else Natural(n / 10)) + [Digit(n % 10)]
  }

  function Decimal(n: int): Bytes {
    if n < 0 then [MINUS] + Natural(-n) else Natural(n)
  }

  ghost predicate AllDigits(t: Bytes) {
    forall i :: 0 <= i < |t| ==> IsDigit(t[i])
  }

  /** The number that the digits stand for. */
  ghost function ValueOf(t: Bytes): nat {
    if t == [] then 0 else 10 * ValueOf(t[..|t| - 1]) + DigitValue(t[|t| - 1])
  }

  /** How many digits the text begins with. */
  ghost function Digits(t: Bytes): (n: nat)
    ensures n <= |t|
  {
    if t == [] || !IsDigit(t[0]) then 0 else 1 + Digits(t[1..])
  }

  /** Reads a whole number without fraction or exponent: no needless zero in front, and none that does not fit
      in 64 bits. */
  ghost function ReadNumber(t: Bytes): (r: Option<(I64, Bytes)>)
    ensures r.Some? ==> |r.value.1| < |t|
  {
    var u := if t != [] && t[0] == MINUS then t[1..] else t;
    var k := Digits(u);
    if k == 0 || (k > 1 && u[0] == ZERO) then None
    else
      var v: int := ValueOf(u[..k]);
      var n := if u == t then v else -v;
      if MIN_I64 <= n <= MAX_I64 then Some((n, u[k..])) else None
  }

  lemma DigitIs(d: nat)
    requires d < 10
    ensures DigitValue(Digit(d)) == d && IsDigit(Digit(d)) && (Digit(d) == ZERO ==> d == 0)
  {
    match d
    case 0 | 1 | 2 | 3 | 4 | 5 | 6 | 7 | 8 | 9 =>
  }

  lemma OneMoreDigit(t: Bytes, c: bv8)
    requires AllDigits(t) && IsDigit(c)
    ensures AllDigits(t + [c]) && ValueOf(t + [c]) == 10 * ValueOf(t) + DigitValue(c)
  {
    hide IsDigit, DigitValue;
    assert (t + [c])[..|t|] == t;
  }

  lemma {:induction false} NaturalIs(n: nat)
    ensures var t := Natural(n); t != [] && AllDigits(t) && ValueOf(t) == n && (t[0] == ZERO ==> n == 0 && |t| == 1)
  {
    hide Digit, DigitValue, IsDigit, AllDigits, ValueOf;
    var (q, d) := (n / 10, n % 10);
    assert n == 10 * q + d;
    DigitIs(d);
    if n < 10 {
      NoDigits();
      OneMoreDigit([], Digit(d));
    } else {
      NaturalIs(q);
      OneMoreDigit(Natural(q), Digit(d));
    }
  }

  lemma NoDigits()
    ensures AllDigits([]) && ValueOf([]) == 0
  {
  }

  lemma {:induction false} DigitsAre(t: Bytes, rest: Bytes)
    requires AllDigits(t) && rest != [] && !IsDigit(rest[0])
    ensures Digits(t + rest) == |t|
  {
    if t == [] {
      assert t + rest == rest;
    } else {
      assert (t + rest)[1..] == t[1..] + rest;
      DigitsAre(t[1..], rest);
    }
  }

  lemma NaturalRead(n: nat, rest: Bytes)
    requires rest != [] && !IsDigit(rest[0])
    ensures var (t, u) := (Natural(n), Natural(n) + rest);
            && t != [] && IsDigit(t[0]) && Digits(u) == |t| && (|t| > 1 ==> t[0] != ZERO)
            && ValueOf(u[..|t|]) == n && u[|t|..] == rest
  {
    hide Natural, Digits, ValueOf;
    var t := Natural(n);
    NaturalIs(n);
    DigitsAre(t, rest);
    assert (t + rest)[..|t|] == t;
  }

  /** What is written for a number reads back as that number and ends where it should. */
  lemma DecimalRead(n: I64, rest: Bytes)
    requires rest != [] && !IsDigit(rest[0])
    ensures ReadNumber(Decimal(n) + rest) == Some((n, rest))
    ensures Decimal(n) != [] && (IsDigit(Decimal(n)[0]) || Decimal(n)[0] == MINUS)
  {
    hide Natural, Digits, ValueOf;
    if n < 0 {
      var m := -(n as int);
      NaturalRead(m, rest);
      assert (Decimal(n) + rest)[1..] == Natural(m) + rest;
    } else {
      NaturalRead(n, rest);
    }
  }
}
