/** The numbers of a rule file, as text and as values (daemon/hotpath/rule_parser.cpp). */
module Decimals {
  import opened Bytes
  import opened Text
  import opened Tokenizer
  import opened Writer = RuleText

  /** Digits, perhaps a sign before them, a fraction and an exponent after them. */
  function NumberText(negative: bool, whole: string, fraction: string, power: Option<Power>): string {
    (if negative then "-" else "") + (whole + AfterWhole(fraction, power))
  }

  function AfterWhole(fraction: string, power: Option<Power>): string {
    (if fraction == "" then "" else "." + fraction) + AfterFraction(power)
  }

  function AfterFraction(power: Option<Power>): string {
    if power.None? then "" else "e" + ((if power.value.smaller then "-" else "+") + power.value.digits)
  }

  predicate IsPower(power: Option<Power>) { power.Some? ==> power.value.digits != "" && AllDigits(power.value.digits) }

  function Mul(x: real, y: real): real { x * y }

  lemma {:induction false} DigitsJoin(a: string, b: string)
    requires AllDigits(a) && AllDigits(b)
    ensures AllDigits(a + b)
    ensures DigitsValue(a + b) as real == Mul(DigitsValue(a) as real, Pow10(|b|)) + DigitsValue(b) as real
    decreases |b|
  {
    hide DigitsValue, Pow10, DigitValue, Mul;
    if b == "" {
      assert a + b == a;
      NoDigits(DigitsValue(a) as real);
    } else {
      var n := |b| - 1;
      DigitsJoin(a, b[..n]);
      DigitAppends(a + b[..n], b[n]);
      DigitAppends(b[..n], b[n]);
      assert a + b[..n] + [b[n]] == a + b && b[..n] + [b[n]] == b;
      TimesTen(DigitsValue(a) as real, n);
    }
  }

  lemma NoDigits(x: real)
    ensures DigitsValue("") == 0 && Mul(x, Pow10(0)) == x
  {}

  lemma TimesTen(x: real, n: nat)
    ensures Mul(x, Pow10(n + 1)) == Mul(x, Pow10(n)) * 10.0
  {
    var y := Pow10(n);
    assert x * (10.0 * y) == x * y * 10.0;
  }

  lemma DigitAppends(s: string, c: char)
    requires AllDigits(s) && IsDigit(c)
    ensures AllDigits(s + [c]) && DigitsValue(s + [c]) as real == DigitsValue(s) as real * 10.0 + DigitValue(c) as real
  {
    assert (s + [c])[..|s|] == s;
  }

  lemma ExponentReads(power: Option<Power>)
    requires IsPower(power)
    ensures Exponent(AfterFraction(power)) == Scan(true, if power.Some? then power.value else Power(false, ""), "")
  {
    hide Digits;
    if power.Some? {
      var Power(smaller, digits) := power.value;
      var t := AfterFraction(power);
      assert t[1..] == (if smaller then "-" else "+") + digits && t[1..][1..] == digits;
      DigitsEnd(digits, "");
      assert digits + "" == digits;
    }
  }

  lemma FractionReads(fraction: string, power: Option<Power>)
    requires AllDigits(fraction) && IsPower(power)
    ensures Fraction(AfterWhole(fraction, power)) == Scan(true, fraction, AfterFraction(power))
  {
    hide Digits;
    var t, rest := AfterWhole(fraction, power), AfterFraction(power);
    if fraction == "" {
      assert t == rest;
    } else {
      assert t[1..] == fraction + rest;
      DigitsEnd(fraction, rest);
    }
  }

  lemma NumberReads(negative: bool, whole: string, fraction: string, power: Option<Power>)
    requires whole != "" && AllDigits(whole) && AllDigits(fraction) && IsPower(power)
    ensures var e := if power.Some? then power.value else Power(false, "");
            var t := NumberText(negative, whole, fraction, power);
            Numeral(t) && Read(t) == Decimal(negative, whole, fraction, e.smaller, e.digits)
  {
    hide Digits, Fraction, Exponent, AfterWhole, AfterFraction, Decimal;
    var t, rest := NumberText(negative, whole, fraction, power), AfterWhole(fraction, power);
    var body := whole + rest;
    assert IsDigit(whole[0]);
    assert negative ==> t[1..] == body;
    assert !negative ==> t == body;
    assert t[0] == if negative then '-' else whole[0];
    NoSpaces(t);
    RestStops(fraction, power);
    DigitsEnd(whole, rest);
    FractionReads(fraction, power);
    ExponentReads(power);
  }

  /** The number `v` with its point moved `places` to the right, and by its exponent, is the whole number `n`. */
  ghost predicate Means(v: real, places: nat, e: Power, n: real)
    requires AllDigits(e.digits)
  {
    var p := Pow10(DigitsValue(e.digits));
    if e.smaller then Mul(Mul(v, Pow10(places)), p) == n else Mul(v, Pow10(places)) == Mul(n, p)
  }

  /** A number is read whole, as its digits in decimal, moved by its fraction and its exponent. */
  lemma NumberMeans(negative: bool, whole: string, fraction: string, power: Option<Power>)
    requires whole != "" && AllDigits(whole) && AllDigits(fraction) && IsPower(power)
    ensures Numeral(NumberText(negative, whole, fraction, power)) && AllDigits(whole + fraction)
    ensures var e := if power.Some? then power.value else Power(false, "");
            var digits := DigitsValue(whole + fraction) as real;
            var v := Read(NumberText(negative, whole, fraction, power));
            Means(v, |fraction|, e, if negative then -digits else digits)
  {
    hide Numeral, Read, NumberText, Decimal, DigitsValue, Means;
    NumberReads(negative, whole, fraction, power);
    DigitsJoin(whole, fraction);
    ScaledDecimal(negative, whole, fraction, if power.Some? then power.value else Power(false, ""));
  }

  lemma RestStops(fraction: string, power: Option<Power>)
    ensures !IsDigit(Peek(AfterWhole(fraction, power)))
  {}

  lemma ScaledDecimal(negative: bool, whole: string, fraction: string, e: Power)
    requires AllDigits(whole) && AllDigits(fraction) && AllDigits(e.digits)
    ensures var n := Mul(DigitsValue(whole) as real, Pow10(|fraction|)) + DigitsValue(fraction) as real;
            Means(Decimal(negative, whole, fraction, e.smaller, e.digits), |fraction|, e, if negative then -n else n)
  {
    hide DigitsValue, Pow10, Mul;
    var w, d := DigitsValue(whole) as real, DigitsValue(fraction) as real;
    var f, p := Pow10(|fraction|), Pow10(DigitsValue(e.digits));
    var m, n := w + d / f, Mul(w, f) + d;
    OverPoint(w, d, f);
    assert Mul(m, f) == n;
    var v := if e.smaller then m / p else m * p;
    assert Decimal(negative, whole, fraction, e.smaller, e.digits) == if negative then -v else v;
    if e.smaller { Smaller(m, f, p); } else { Larger(m, f, p); }
    if negative {
      Negated(v, f);
      Negated(Mul(v, f), p);
      Negated(n, p);
    }
  }

  lemma OverPoint(w: real, d: real, f: real)
    requires f > 0.0
    ensures Mul(w + d / f, f) == Mul(w, f) + d
  {
    assert d / f * f == d;
  }

  lemma Smaller(m: real, f: real, p: real)
    requires p > 0.0
    ensures Mul(Mul(m / p, f), p) == Mul(m, f)
  {
    var q := m / p;
    assert q * p == m;
    assert q * f * p == q * p * f;
  }

  lemma Larger(m: real, f: real, p: real)
    ensures Mul(m * p, f) == Mul(Mul(m, f), p)
  {}

  lemma Negated(x: real, y: real)
    ensures Mul(-x, y) == -Mul(x, y)
  {}
}
