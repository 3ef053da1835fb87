/** The hand-written JSON tokenizer of the rule parser (daemon/hotpath/rule_parser.cpp). Each operation is
    specified as a function of the text that is left, returning what it leaves; the class works with a
    position. */
module Tokenizer {
  import opened Text

  datatype Scan<T> = Scan(ok: bool, value: T, rest: string)

  function Peek(t: string): char { if t == "" then '\0' else t[0] }

  function Skip(t: string): (r: string)
    ensures |r| <= |t|
  {
    SkipShortens(t);
    SkipSpaces(t)
  }

  lemma {:induction false} SkipShortens(t: string)
    ensures |SkipSpaces(t)| <= |t|
  {
    if t != "" && IsSpace(t[0]) { SkipShortens(t[1..]); }
  }

  function Expect(t: string, c: char): (r: Scan<()>)
    ensures |r.rest| <= |t| && (r.ok ==> |r.rest| < |t|)
  {
    var u := Skip(t);
    if u != "" && u[0] == c then Scan(true, (), u[1..]) else Scan(false, (), u)
  }

  // ---- Strings --------------------------------------------------------------------------------

  function Unescape(c: char): char {
    if c == 'n' then '\n' else if c == 't' then '\t' else if c == 'r' then '\r' else c
  }

  /** The characters up to the closing quote. */
  function Body(t: string): (r: Scan<string>)
    ensures |r.rest| <= |t|
  {
    if t == "" || t[0] == '"' then Scan(true, "", t)
    else if t[0] == '\\' && |t| > 1 then
      var r := Body(t[2..]);
      Scan(true, [Unescape(t[1])] + r.value, r.rest)
    else
      var r := Body(t[1..]);
      Scan(true, [t[0]] + r.value, r.rest)
  }

  /** A string literal; a failed scan keeps what it has read. */
  function ScanString(t: string): (r: Scan<string>)
    ensures |r.rest| <= |t| && (r.ok ==> |r.rest| + 2 <= |t|)
  {
    var u := Skip(t);
    if Peek(u) != '"' then Scan(false, "", u)
    else
      var b := Body(u[1..]);
      if Peek(b.rest) != '"' then Scan(false, b.value, b.rest) else Scan(true, b.value, b.rest[1..])
  }

  // ---- Numbers --------------------------------------------------------------------------------

  function Pow10(n: nat): (r: real)
    ensures r > 0.0
  {
    if n == 0 then 1.0 else 10.0 * Pow10(n - 1)
  }

  predicate AllDigits(s: string) { forall i :: 0 <= i < |s| ==> IsDigit(s[i]) }

  /** The number written as sign, digits, fraction digits and exponent. */
  function Decimal(negative: bool, whole: string, fraction: string, smaller: bool, exponent: string): real
    requires AllDigits(whole) && AllDigits(fraction) && AllDigits(exponent)
  {
    var m := DigitsValue(whole) as real + DigitsValue(fraction) as real / Pow10(|fraction|);
    var e := Pow10(DigitsValue(exponent));
    var v := if smaller then m / e else m * e;
    if negative then -v else v
  }

  /** Digits after the position, at least one. */
  function Digits(t: string): (r: Scan<string>)
    ensures |r.rest| <= |t| && AllDigits(r.value) && (r.ok ==> |r.rest| < |t|)
  {
    var d := LeadingDigits(t);
    Scan(d != "", d, t[|d|..])
  }

  function Fraction(t: string): (r: Scan<string>)
    ensures |r.rest| <= |t| && AllDigits(r.value)
  {
    if Peek(t) == '.' then Digits(t[1..]) else Scan(true, "", t)
  }

  datatype Power = Power(smaller: bool, digits: string)

  function Exponent(t: string): (r: Scan<Power>)
    ensures |r.rest| <= |t| && AllDigits(r.value.digits)
  {
    if Peek(t) == 'e' || Peek(t) == 'E' then
      var u := t[1..];
      var d := Digits(if Peek(u) == '+' || Peek(u) == '-' then u[1..] else u);
      Scan(d.ok, Power(Peek(u) == '-', d.value), d.rest)
    else Scan(true, Power(false, ""), t)
  }

  /** A number literal. */
  function ScanNumber(t: string): (r: Scan<real>)
    ensures |r.rest| <= |t| && (r.ok ==> |r.rest| < |t|)
  {
    var u := Skip(t);
    var negative := Peek(u) == '-';
    var whole := Digits(if negative then u[1..] else u);
    if !whole.ok then Scan(false, 0.0, whole.rest)
    else
      var fraction := Fraction(whole.rest);
      if !fraction.ok then Scan(false, 0.0, fraction.rest)
      else
        var power := Exponent(fraction.rest);
        if !power.ok then Scan(false, 0.0, power.rest)
        else
          var Power(smaller, digits) := power.value;
          Scan(true, Decimal(negative, whole.value, fraction.value, smaller, digits), power.rest)
  }

  /** Reading `t` has given `out` and come to `r`. */
  ghost predicate BodyAt(t: string, out: string, r: string) {
    Body(t).value == out + Body(r).value && Body(t).rest == Body(r).rest
  }

  lemma BodyStart(t: string)
    ensures BodyAt(t, "", t)
  {
    assert "" + Body(t).value == Body(t).value;
  }

  lemma BodyStep(t: string, out: string, r: string)
    requires BodyAt(t, out, r) && r != "" && r[0] != '"'
    ensures r[0] == '\\' && |r| > 1 ==> BodyAt(t, out + [Unescape(r[1])], r[2..])
    ensures r[0] != '\\' || |r| == 1 ==> BodyAt(t, out + [r[0]], r[1..])
  {
    var n := if r[0] == '\\' && |r| > 1 then 2 else 1;
    var c := if n == 2 then Unescape(r[1]) else r[0];
    assert Body(r).value == [c] + Body(r[n..]).value;
    hide Body, Unescape;
    assert out + ([c] + Body(r[n..]).value) == (out + [c]) + Body(r[n..]).value;
  }

  lemma BodyEnd(t: string, out: string, r: string)
    requires BodyAt(t, out, r) && (r == "" || r[0] == '"')
    ensures Body(t) == Scan(true, out, r)
  {
    BodyOk(t);
    assert out + "" == out;
  }

  lemma BodyOk(t: string)
    ensures Body(t).ok
  {}

  lemma {:induction false} LeadingDigitsAppend(a: string, b: string)
    requires AllDigits(a)
    ensures LeadingDigits(a + b) == a + LeadingDigits(b)
  {
    if a == "" {
      assert a + b == b;
    } else {
      assert (a + b)[1..] == a[1..] + b;
      LeadingDigitsAppend(a[1..], b);
    }
  }

  /** Digits end where the next character is not one. */
  lemma DigitsEnd(d: string, rest: string)
    requires AllDigits(d) && !IsDigit(Peek(rest))
    ensures Digits(d + rest) == Scan(d != "", d, rest)
  {
    LeadingDigitsAppend(d, rest);
    assert d + "" == d;
    assert (d + rest)[|d|..] == rest;
  }

  // ---- The code -------------------------------------------------------------------------------

  class JsonTokenizer {
    const json: string
    var pos: nat

    ghost predicate Valid()
      reads this
    {
      pos <= |json|
    }

    ghost function Rest(): string
      requires Valid()
      reads this
    {
      json[pos..]
    }

    constructor (json: string)
      ensures this.json == json && pos == 0 && Valid() && Rest() == json
    {
      this.json, pos := json, 0;
      new;
      assert json[0..] == json;
    }

    function PeekChar(): (c: char)
      requires Valid()
      reads this
      ensures c == Peek(Rest())
    {
      if pos >= |json| then '\0' else json[pos]
    }

    method Consume()
      requires Valid()
      modifies this
      ensures Valid() && old(pos) <= pos
      ensures Rest() == if old(Rest()) == "" then "" else old(Rest())[1..]
    {
      if pos < |json| { pos := pos + 1; }
    }

    method SkipWhitespace()
      requires Valid()
      modifies this
      ensures Valid() && old(pos) <= pos && Rest() == Skip(old(Rest()))
    {
      while pos < |json| && IsSpace(json[pos])
        invariant Valid() && old(pos) <= pos
        invariant SkipSpaces(json[pos..]) == SkipSpaces(old(Rest()))
      {
        assert json[pos..][1..] == json[pos + 1..];
        pos := pos + 1;
      }
    }

    method ExpectChar(c: char) returns (ok: bool)
      requires Valid() && c != '\0'
      modifies this
      ensures Valid() && old(pos) <= pos && Scan(ok, (), Rest()) == Expect(old(Rest()), c)
    {
      hide Skip;
      SkipWhitespace();
      if PeekChar() == c {
        Consume();
        return true;
      }
      ok := false;
    }

    method ParseBody() returns (out: string)
      requires Valid()
      modifies this
      ensures Valid() && old(pos) <= pos && Scan(true, out, Rest()) == Body(old(Rest()))
    {
      hide BodyAt, Body, Unescape;
      out := "";
      ghost var t := Rest();
      assert BodyAt(t, out, t) by { BodyStart(t); }
      while pos < |json| && json[pos] != '"'
        invariant Valid() && old(pos) <= pos
        invariant BodyAt(t, out, json[pos..])
      {
        BodyStep(t, out, json[pos..]);
        if json[pos] == '\\' && pos + 1 < |json| {
          assert json[pos..][2..] == json[pos + 2..];
          pos := pos + 1;
          out := out + [Unescape(json[pos])];
        } else {
          assert json[pos..][1..] == json[pos + 1..];
          out := out + [json[pos]];
        }
        pos := pos + 1;
      }
      BodyEnd(t, out, json[pos..]);
    }

    method ParseString() returns (ok: bool, out: string)
      requires Valid()
      modifies this
      ensures Valid() && old(pos) <= pos && Scan(ok, out, Rest()) == ScanString(old(Rest()))
    {
      hide Skip, Body;
      out := "";
      SkipWhitespace();
      if PeekChar() != '"' { return false, out; }
      Consume();
      out := ParseBody();
      if PeekChar() != '"' { return false, out; }
      Consume();
      ok := true;
    }

    method SkipDigits() returns (ok: bool, digits: string)
      requires Valid()
      modifies this
      ensures Valid() && old(pos) <= pos && Scan(ok, digits, Rest()) == Digits(old(Rest()))
    {
      hide Digits;
      var start := pos;
      while IsDigit(PeekChar())
        invariant Valid() && start <= pos
        invariant AllDigits(json[start..pos])
        decreases |json| - pos
      {
        assert json[start..pos + 1] == json[start..pos] + [json[pos]];
        pos := pos + 1;
      }
      digits := json[start..pos];
      ok := digits != "";
      DigitsEnd(digits, json[pos..]);
      assert json[start..] == digits + json[pos..];
    }

    method ParseFraction() returns (ok: bool, digits: string)
      requires Valid()
      modifies this
      ensures Valid() && old(pos) <= pos && Scan(ok, digits, Rest()) == Fraction(old(Rest()))
    {
      hide Digits;
      if PeekChar() != '.' { return true, ""; }
      Consume();
      ok, digits := SkipDigits();
    }

    method ParseExponent() returns (ok: bool, power: Power)
      requires Valid()
      modifies this
      ensures Valid() && old(pos) <= pos && Scan(ok, power, Rest()) == Exponent(old(Rest()))
    {
      hide Digits;
      if PeekChar() != 'e' && PeekChar() != 'E' { return true, Power(false, ""); }
      Consume();
      var smaller := PeekChar() == '-';
      if PeekChar() == '+' || PeekChar() == '-' { Consume(); }
      var digits;
      ok, digits := SkipDigits();
      power := Power(smaller, digits);
    }

    method ParseNumber() returns (ok: bool, out: real)
      requires Valid()
      modifies this
      ensures Valid() && old(pos) <= pos && Scan(ok, out, Rest()) == ScanNumber(old(Rest()))
    {
      hide Skip, Digits, Fraction, Exponent, Decimal;
      SkipWhitespace();
      var negative := PeekChar() == '-';
      if negative { Consume(); }
      var whole, fraction, power;
      ok, whole := SkipDigits();
      if !ok { return false, 0.0; }
      ok, fraction := ParseFraction();
      if !ok { return false, 0.0; }
      ok, power := ParseExponent();
      if !ok { return false, 0.0; }
      out := Decimal(negative, whole, fraction, power.smaller, power.digits);
    }
  }
}
