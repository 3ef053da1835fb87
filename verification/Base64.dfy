/** Base64 as the opening handshake writes it (daemon/debug/ws_frame.cpp), and the decoding of section 4 of
    RFC 4648 as its inverse. */
module Base64 {
  import opened Bytes

  type sextet = x: int | 0 <= x < 64

  const PAD: byte := 61

  function Symbol(x: sextet): byte {
    if x < 26 then 65 + x else if x < 52 then 71 + x else if x < 62 then x - 4 else if x == 62 then 43 else 47
  }

  function Unsymbol(b: byte): Option<sextet> {
    if 65 <= b <= 90 then Some(b - 65) else if 97 <= b <= 122 then Some(b - 71)
    else if 48 <= b <= 57 then Some(b + 4) else if b == 43 then Some(62) else if b == 47 then Some(63) else None
  }

  /** The four six-bit parts of three bytes. */
  function First(a: byte): sextet { a / 4 }

  function Second(a: byte, b: byte): sextet { a % 4 * 16 + b / 16 }

  function Third(b: byte, c: byte): sextet { b % 16 * 4 + c / 64 }

  function Fourth(c: byte): sextet { c % 64 }

  /** Three bytes at a time, padded at the end. */
  function Encoded(d: seq<byte>): (s: seq<byte>)
    ensures |s| == (|d| + 2) / 3 * 4
  {
    if d == [] then []
    else if |d| == 1 then [Symbol(First(d[0])), Symbol(Second(d[0], 0)), PAD, PAD]
    else if |d| == 2 then [Symbol(First(d[0])), Symbol(Second(d[0], d[1])), Symbol(Third(d[1], 0)), PAD]
    else
      [Symbol(First(d[0])), Symbol(Second(d[0], d[1])), Symbol(Third(d[1], d[2])), Symbol(Fourth(d[2]))]
      + Encoded(d[3..])
  }

  function Bytes3(w: sextet, x: sextet, y: sextet, z: sextet): seq<byte> {
    [w * 4 + x / 16, x % 16 * 16 + y / 4, y % 4 * 64 + z]
  }

  function Decoded(s: seq<byte>): Option<seq<byte>> {
    if s == [] then Some([])
    else if |s| < 4 then None
    else
      var w, x, y, z := Unsymbol(s[0]), Unsymbol(s[1]), Unsymbol(s[2]), Unsymbol(s[3]);
      if w.None? || x.None? then None
      else if |s| == 4 && s[2] == PAD && s[3] == PAD then Some(Bytes3(w.value, x.value, 0, 0)[..1])
      else if y.None? then None
      else if |s| == 4 && s[3] == PAD then Some(Bytes3(w.value, x.value, y.value, 0)[..2])
      else if z.None? then None
      else
        var rest := Decoded(s[4..]);
        if rest.None? then None else Some(Bytes3(w.value, x.value, y.value, z.value) + rest.value)
  }

  lemma SymbolBack(x: sextet)
    ensures Unsymbol(Symbol(x)) == Some(x) && Symbol(x) != PAD
  {}

  lemma PadIsNoSymbol()
    ensures Unsymbol(PAD) == None
  {}

  lemma BytesBack(a: byte, b: byte, c: byte)
    ensures Bytes3(First(a), Second(a, b), Third(b, c), Fourth(c)) == [a, b, c]
  {}

  /** Decoding gives back what was encoded. */
  lemma {:induction false} DecodesBack(d: seq<byte>)
    ensures Decoded(Encoded(d)) == Some(d)
  {
    hide Symbol, Unsymbol, Bytes3, First, Second, Third, Fourth;
    PadIsNoSymbol();
    if d != [] {
      var a, b, c := d[0], if |d| > 1 then d[1] else 0, if |d| > 2 then d[2] else 0;
      SymbolBack(First(a));
      SymbolBack(Second(a, b));
      SymbolBack(Third(b, c));
      SymbolBack(Fourth(c));
      BytesBack(a, b, c);
      if |d| == 1 {
        PadParts(a, b);
        assert [a, b, c][..1] == d;
      } else if |d| == 2 {
        PadParts(a, b);
        assert [a, b, c][..2] == d;
      } else {
        DecodesBack(d[3..]);
        var four := [Symbol(First(a)), Symbol(Second(a, b)), Symbol(Third(b, c)), Symbol(Fourth(c))];
        assert Encoded(d)[4..] == Encoded(d[3..]);
        assert d == [a, b, c] + d[3..];
      }
    }
  }

  lemma PadParts(a: byte, b: byte)
    ensures Third(0, 0) == 0 && Fourth(0) == 0
  {}

  // ---- The code -------------------------------------------------------------------------------

  /** The parts of the 24-bit word of three bytes, taken by shifts and masks. */
  lemma WordParts(a: byte, b: byte, c: byte)
    ensures var n := (a as int) * 0x1_0000 + (b as int) * 256 + c;
            && n / 64 / 64 / 64 % 64 == First(a) && n / 64 / 64 % 64 == Second(a, b)
            && n / 64 % 64 == Third(b, c) && n % 64 == Fourth(c)
  {
    var n := (a as int) * 0x1_0000 + (b as int) * 256 + c;
    Divide64((a as int) * 1024 + (b as int) * 4 + c / 64, c % 64);
    Divide64((a as int) * 16 + b / 16, b % 16 * 4 + c / 64);
    Divide64(a / 4, a % 4 * 16 + b / 16);
    assert n == 64 * ((a as int) * 1024 + (b as int) * 4 + c / 64) + c % 64;
  }

  lemma Divide64(q: int, r: int)
    requires 0 <= r < 64
    ensures (64 * q + r) / 64 == q && (64 * q + r) % 64 == r
  {}

  /** The symbols of the first one, two or three bytes. */
  function Group(d: seq<byte>): seq<byte>
    requires d != []
  {
    var b, c := if |d| > 1 then d[1] else 0, if |d| > 2 then d[2] else 0;
    [Symbol(First(d[0])), Symbol(Second(d[0], b)), if |d| > 1 then Symbol(Third(b, c)) else PAD,
     if |d| > 2 then Symbol(Fourth(c)) else PAD]
  }

  function Rest(d: seq<byte>, i: nat): seq<byte> { if i < |d| then d[i..] else [] }

  lemma EncodedStep(d: seq<byte>, i: nat)
    requires i < |d|
    ensures Encoded(d[i..]) == Group(d[i..]) + Encoded(Rest(d, i + 3))
  {
    hide Symbol, First, Second, Third, Fourth;
    assert i + 3 < |d| ==> d[i..][3..] == d[i + 3..];
  }

  method EncodeGroup(d: seq<byte>, i: nat) returns (four: seq<byte>)
    requires i < |d|
    ensures four == Group(d[i..])
  {
    hide Symbol, First, Second, Third, Fourth;
    var b: byte := if i + 1 < |d| then d[i + 1] else 0;
    var c: byte := if i + 2 < |d| then d[i + 2] else 0;
    var n := (d[i] as int) * 0x1_0000 + (b as int) * 256 + c;
    WordParts(d[i], b, c);
    four := [Symbol(n / 64 / 64 / 64 % 64), Symbol(n / 64 / 64 % 64)];
    four := four + [if i + 1 < |d| then Symbol(n / 64 % 64) else PAD];
    four := four + [if i + 2 < |d| then Symbol(n % 64) else PAD];
  }

  /** `base64_encode`. */
  method Encode(d: seq<byte>) returns (result: seq<byte>)
    ensures result == Encoded(d)
  {
    hide Encoded, Group;
    result := [];
    var i := 0;
    EncodedEnds();
    assert d != [] ==> d[0..] == d;
    while i < |d|
      invariant 0 <= i
      invariant result + Encoded(Rest(d, i)) == Encoded(d)
    {
      var four := EncodeGroup(d, i);
      EncodedStep(d, i);
      assert (result + four) + Encoded(Rest(d, i + 3)) == result + (four + Encoded(Rest(d, i + 3)));
      result := result + four;
      i := i + 3;
    }
  }

  lemma EncodedEnds()
    ensures Encoded([]) == []
  {}
}
