/** The text formats of the key and whitelist files: hexadecimal, decimal numbers, lines and fields
    (daemon/core/auth/crypto_utils.cpp and the C++ library calls the file code makes). */
module Text {
  import opened Bytes

  // ---- Hexadecimal ----------------------------------------------------------------------------

  type nibble = x: int | 0 <= x < 16

  function HexDigit(n: nibble): char { "0123456789abcdef"[n] }

  function HexValue(c: char): (r: Option<nibble>)
  {
    if '0' <= c <= '9' then Some(c as int - '0' as int)
    else if 'a' <= c <= 'f' then Some(c as int - 'a' as int + 10)
    else if 'A' <= c <= 'F' then Some(c as int - 'A' as int + 10)
    else None
  }

  function Hex(data: seq<byte>): (s: string)
    ensures |s| == 2 * |data|
  {
    if data == [] then ""
    else Hex(data[..|data| - 1]) + [HexDigit(data[|data| - 1] / 16), HexDigit(data[|data| - 1] % 16)]
  }

  /** The bytes of a hexadecimal string, if it is one. */
  function Unhex(s: string): (r: Option<seq<byte>>)
    ensures r.Some? ==> |s| == 2 * |r.value|
  {
    if s == "" then Some([])
    else if |s| == 1 then None
    else
      var n := |s| - 2;
      var front, high, low := Unhex(s[..n]), HexValue(s[n]), HexValue(s[n + 1]);
      if front.None? || high.None? || low.None? then None
      else Some(front.value + [(high.value as int) * 16 + low.value])
  }

  lemma HexDigitValue(n: nibble)
    ensures HexValue(HexDigit(n)) == Some(n)
  {}

  lemma UnhexSnoc(front: string, d: seq<byte>, b: byte)
    requires Unhex(front) == Some(d)
    ensures Unhex(front + [HexDigit(b / 16), HexDigit(b % 16)]) == Some(d + [b])
  {
    hide HexDigit, HexValue;
    HexDigitValue(b / 16);
    HexDigitValue(b % 16);
    var s := front + [HexDigit(b / 16), HexDigit(b % 16)];
    assert s[..|s| - 2] == front;
  }

  lemma {:induction false} HexRoundTrip(data: seq<byte>)
    ensures Unhex(Hex(data)) == Some(data)
  {
    hide HexDigit, Unhex;
    if data != [] {
      var n := |data| - 1;
      HexRoundTrip(data[..n]);
      UnhexSnoc(Hex(data[..n]), data[..n], data[n]);
      assert data == data[..n] + [data[n]];
    } else {
      EmptyHex();
    }
  }

  lemma EmptyHex()
    ensures Unhex("") == Some([])
  {}

  method ToHex(data: seq<byte>) returns (s: string)
    ensures s == Hex(data)
  {
    s := "";
    for i := 0 to |data|
      invariant s == Hex(data[..i])
    {
      assert data[..i + 1][..i] == data[..i];
      s := s + [HexDigit(data[i] / 16)] + [HexDigit(data[i] % 16)];
    }
    assert data[..|data|] == data;
  }

  method FromHex(s: string) returns (r: Option<seq<byte>>)
    ensures r == Unhex(s)
  {
    if |s| % 2 != 0 { OddIsNotHex(s); return None; }
    var result := [];
    var i := 0;
    while i < |s|
      invariant 0 <= i <= |s| && i % 2 == 0
      invariant Unhex(s[..i]) == Some(result)
    {
      hide HexValue;
      var high, low := HexValue(s[i]), HexValue(s[i + 1]);
      assert s[..i + 2][..i] == s[..i];
      if high.None? || low.None? {
        BadPrefix(s, i + 2);
        return None;
      }
      result := result + [(high.value as int) * 16 + low.value];
      i := i + 2;
    }
    assert s[..|s|] == s;
    r := Some(result);
  }

  lemma {:induction false} OddIsNotHex(s: string)
    requires |s| % 2 != 0
    ensures Unhex(s) == None
  {
    hide HexValue;
    if |s| > 1 { OddIsNotHex(s[..|s| - 2]); }
  }

  lemma {:induction false} BadPrefix(s: string, i: nat)
    requires i <= |s| && i % 2 == |s| % 2 && Unhex(s[..i]) == None
    ensures Unhex(s) == None
  {
    hide HexValue;
    if i == |s| {
      assert s[..i] == s;
    } else {
      assert s[..|s| - 2][..i] == s[..i];
      BadPrefix(s[..|s| - 2], i);
    }
  }

  predicate IsHexText(s: string) { forall i :: 0 <= i < |s| ==> HexValue(s[i]).Some? }

  lemma {:induction false} HexIsHexText(data: seq<byte>)
    ensures IsHexText(Hex(data))
  {
    hide HexDigit, HexValue;
    if data != [] {
      var n := |data| - 1;
      HexIsHexText(data[..n]);
      HexDigitValue(data[n] / 16);
      HexDigitValue(data[n] % 16);
    }
  }

  // ---- Decimal numbers ------------------------------------------------------------------------

  function Digit(n: nat): char
    requires n < 10
  {
    "0123456789"[n]
  }

  predicate IsDigit(c: char) { '0' <= c <= '9' }

  function DigitValue(c: char): nat
    requires IsDigit(c)
  {
    c as int - '0' as int
  }

  function PrintNat(n: nat): (s: string)
    ensures |s| >= 1
  {
    if n < 10 then [Digit(n)] else PrintNat(n / 10) + [Digit(n % 10)]
  }

  function PrintInt(n: int): string { if n < 0 then "-" + PrintNat(-n) else PrintNat(n) }

  function DigitsValue(s: string): nat
    requires forall i :: 0 <= i < |s| ==> IsDigit(s[i])
  {
    if s == "" then 0 else DigitsValue(s[..|s| - 1]) * 10 + DigitValue(s[|s| - 1])
  }

  lemma {:induction false} PrintNatReads(n: nat)
    ensures forall i :: 0 <= i < |PrintNat(n)| ==> IsDigit(PrintNat(n)[i])
    ensures DigitsValue(PrintNat(n)) == n
  {
    if n >= 10 {
      PrintNatReads(n / 10);
      var s := PrintNat(n);
      assert s[..|s| - 1] == PrintNat(n / 10);
    } else {
      assert PrintNat(n)[..0] == "";
    }
  }

  /** The leading digits of a string. */
  function LeadingDigits(s: string): (d: string)
    ensures d <= s
    ensures forall i :: 0 <= i < |d| ==> IsDigit(d[i])
  {
    if s == "" || !IsDigit(s[0]) then "" else [s[0]] + LeadingDigits(s[1..])
  }

  lemma {:induction false} LeadingDigitsAll(s: string)
    requires forall i :: 0 <= i < |s| ==> IsDigit(s[i])
    ensures LeadingDigits(s) == s
  {
    if s != "" { LeadingDigitsAll(s[1..]); }
  }

  predicate IsSpace(c: char) { c == ' ' || c == '\t' || c == '\n' || c == '\r' || c as int == 11 || c as int == 12 }

  function SkipSpaces(s: string): string {
    if s != "" && IsSpace(s[0]) then SkipSpaces(s[1..]) else s
  }

  /** Sign and digits as the `std::stoi` family reads them: spaces first, anything after the digits
      ignored; `None` when there are no digits (the library throws). */
  function ReadNumber(s: string): Option<int> {
    var t := SkipSpaces(s);
    var negative := t != "" && t[0] == '-';
    var body := if t != "" && (t[0] == '-' || t[0] == '+') then t[1..] else t;
    var digits := LeadingDigits(body);
    if digits == "" then None else Some((if negative then -1 else 1) * (DigitsValue(digits) as int))
  }

  lemma PrintIntReads(n: int)
    ensures ReadNumber(PrintInt(n)) == Some(n)
  {
    hide PrintNat, DigitsValue, LeadingDigits, SkipSpaces;
    var m := if n < 0 then -n else n;
    PrintNatReads(m);
    LeadingDigitsAll(PrintNat(m));
    var s := PrintInt(n);
    if n < 0 {
      assert s[0] == '-' && s[1..] == PrintNat(m);
    } else {
      assert IsDigit(s[0]);
    }
    NoSpaces(s);
  }

  lemma NoSpaces(s: string)
    requires s != "" && !IsSpace(s[0])
    ensures SkipSpaces(s) == s
  {}

  /** A signed read that throws outside its range, like `std::stoi` and `std::stoll`. */
  function ReadSigned(s: string, limit: nat): Option<int> {
    var n := ReadNumber(s);
    if n.Some? && -(limit as int) <= n.value < limit then n else None
  }

  const INT32 := 0x8000_0000
  const INT64 := 0x8000_0000_0000_0000
  const UINT64 := 0x1_0000_0000_0000_0000

  /** `std::stoul` and `std::stoull` on a 64-bit target: a minus sign wraps around. */
  function ReadUnsigned(s: string): Option<nat> {
    var n := ReadNumber(s);
    if n.None? || n.value >= UINT64 || n.value <= -UINT64 then None
    else if n.value < 0 then Some(n.value + UINT64) else Some(n.value)
  }

  // ---- Lines and fields -----------------------------------------------------------------------

  function IndexOf(s: string, c: char): (r: Option<nat>)
    ensures r.Some? ==> r.value < |s| && s[r.value] == c && c !in s[..r.value]
    ensures r.None? ==> c !in s
  {
    if s == "" then None
    else if s[0] == c then Some(0)
    else
      var r := IndexOf(s[1..], c);
      assert r.Some? ==> s[..r.value + 1] == [s[0]] + s[1..][..r.value];
      if r.None? then None else Some(r.value + 1)
  }

  /** Successive `std::getline` calls with delimiter `d`: no last empty piece. */
  function Pieces(s: string, d: char): (r: seq<string>)
    decreases |s|
  {
    if s == "" then []
    else
      var at := IndexOf(s, d);
      if at.None? then [s] else [s[..at.value]] + Pieces(s[at.value + 1..], d)
  }

  lemma {:induction false} IndexOfFirst(a: string, c: char, b: string)
    requires c !in a
    ensures IndexOf(a + [c] + b, c) == Some(|a|)
  {
    var s := a + [c] + b;
    if a != "" {
      assert s[0] == a[0] && s[1..] == a[1..] + [c] + b;
      IndexOfFirst(a[1..], c, b);
    }
  }

  /** A piece without the delimiter comes back as the first one. */
  lemma PiecesCons(a: string, d: char, b: string)
    requires d !in a
    ensures Pieces(a + [d] + b, d) == [a] + Pieces(b, d)
  {
    var s := a + [d] + b;
    IndexOfFirst(a, d, b);
    hide IndexOf;
    assert s[..|a|] == a && s[|a| + 1..] == b;
  }

  lemma PiecesLast(a: string, d: char)
    requires d !in a
    ensures Pieces(a, d) == if a == "" then [] else [a]
  {}

  lemma {:induction false} PiecesSplit(h: string, d: char, t: string)
    ensures Pieces(h + [d] + t, d) == Pieces(h + [d], d) + Pieces(t, d)
    decreases |h|
  {
    hide Pieces;
    var at := IndexOf(h, d);
    if at.None? {
      PiecesCons(h, d, t);
      PiecesCons(h, d, "");
      PiecesLast("", d);
      assert h + [d] + "" == h + [d];
    } else {
      var a, b := h[..at.value], h[at.value + 1..];
      assert h + [d] + t == a + [d] + (b + [d] + t) && h + [d] == a + [d] + (b + [d]);
      PiecesCons(a, d, b + [d] + t);
      PiecesCons(a, d, b + [d]);
      PiecesSplit(b, d, t);
    }
  }

  lemma {:induction false} PiecesFree(s: string, d: char, c: char)
    requires c !in s || c == d
    ensures forall i :: 0 <= i < |Pieces(s, d)| ==> c !in Pieces(s, d)[i]
    decreases |s|
  {
    if s != "" {
      var at := IndexOf(s, d);
      if at.Some? {
        PiecesFree(s[at.value + 1..], d, c);
        var rest := Pieces(s[at.value + 1..], d);
        assert Pieces(s, d) == [s[..at.value]] + rest;
      }
    }
  }

  predicate IsBlank(c: char) { c == ' ' || c == '\t' || c == '\r' || c == '\n' }

  function TrimLeft(s: string): string { if s != "" && IsBlank(s[0]) then TrimLeft(s[1..]) else s }

  function TrimRight(s: string): string { if s != "" && IsBlank(s[|s| - 1]) then TrimRight(s[..|s| - 1]) else s }

  function Trim(s: string): string { TrimRight(TrimLeft(s)) }

  predicate IsTrimmed(s: string) { s == "" || (!IsBlank(s[0]) && !IsBlank(s[|s| - 1])) }

  lemma TrimTrimmed(s: string)
    requires IsTrimmed(s)
    ensures Trim(s) == s
  {}

  lemma {:induction false} TrimLeftKeeps(s: string)
    ensures (TrimLeft(s) == "" || !IsBlank(TrimLeft(s)[0])) && forall c :: c in TrimLeft(s) ==> c in s
  {
    if s != "" && IsBlank(s[0]) { TrimLeftKeeps(s[1..]); }
  }

  lemma {:induction false} TrimRightKeeps(s: string)
    ensures TrimRight(s) <= s && (TrimRight(s) == "" || !IsBlank(TrimRight(s)[|TrimRight(s)| - 1]))
  {
    if s != "" && IsBlank(s[|s| - 1]) { TrimRightKeeps(s[..|s| - 1]); }
  }

  lemma TrimIsTrimmed(s: string)
    ensures IsTrimmed(Trim(s)) && forall c :: c in Trim(s) ==> c in s
  {
    hide IsBlank, TrimLeft, TrimRight;
    TrimLeftKeeps(s);
    TrimRightKeeps(TrimLeft(s));
  }
}
