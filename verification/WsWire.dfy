/** The frames of section 5.2 of RFC 6455 as they are on the wire, and the decoder of the debug channel against them
    (daemon/debug/ws_frame.cpp). */
module WsWire {
  import opened Bytes
  import opened WsFrame

  // ---- The wire format ------------------------------------------------------------------------

  /** A payload length in one of the three forms: seven bits, or two or eight bytes, not necessarily the shortest. */
  ghost predicate WritesLength(short: int, ext: seq<byte>, n: nat) {
    || (|ext| == 0 && n <= 125 && short == n)
    || (|ext| == 2 && n < 65536 && short == 126 && ext == BigEndian(n, 2))
    || (|ext| == 8 && n < U64 && short == 127 && ext == BigEndian(n, 8))
  }

  datatype Head = Head(fin: bool, opcode: Opcode, masked: bool, key: Key32, length: nat)

  type Reserved = x: int | 0 <= x < 8

  /** The bytes before the payload: the final bit, reserved bits and opcode; the mask bit and the length; the key. */
  function HeadBytes(h: Head, reserved: Reserved, short: int, ext: seq<byte>): seq<byte>
    requires 0 <= short < 128
  {
    [(if h.fin then 128 else 0) + 16 * reserved + h.opcode] + [(if h.masked then 128 else 0) + short] + ext
    + (if h.masked then BigEndian(h.key, 4) else [])
  }

  ghost predicate Writes(w: seq<byte>, h: Head, reserved: Reserved, short: int, ext: seq<byte>) {
    && WritesLength(short, ext, h.length) && w == HeadBytes(h, reserved, short, ext)
    && (!h.masked ==> h.key == 0)
  }

  ghost predicate IsHead(w: seq<byte>, h: Head) { exists reserved, short, ext :: Writes(w, h, reserved, short, ext) }

  function HeadOf(f: Frame): Head { Head(f.fin, f.opcode, f.masked, f.maskKey, |f.payload|) }

  /** A whole frame: a head, and the payload, masked if the head says so. */
  ghost predicate IsWire(w: seq<byte>, f: Frame) {
    exists k :: 0 <= k <= |w| && IsHead(w[..k], HeadOf(f))
             && w[k..] == if f.masked then Masked(f.payload, f.maskKey) else f.payload
  }

  // ---- Heads ----------------------------------------------------------------------------------

  lemma {:induction false} BigEndianBack(s: seq<byte>)
    ensures BigEndian(FromBigEndian(s), |s|) == s
  {
    if s != [] {
      BigEndianBack(s[..|s| - 1]);
      assert s == s[..|s| - 1] + [s[|s| - 1]];
    }
  }

  lemma KeyBack(data: seq<byte>, pos: nat)
    requires pos + 4 <= |data|
    ensures BigEndian(DecodeKey(data, pos), 4) == data[pos..pos + 4]
  {
    var key := DecodeKey(data, pos);
    FourDigits(key);
    hide BigEndian;
    DigitsOf(data[pos], data[pos + 1], data[pos + 2], data[pos + 3]);
  }

  lemma DigitsOf(a: byte, b: byte, c: byte, d: byte)
    ensures var n := (a as int) * 0x100_0000 + (b as int) * 0x1_0000 + (c as int) * 256 + d;
            n / 256 / 256 / 256 % 256 == a && n / 256 / 256 % 256 == b && n / 256 % 256 == c && n % 256 == d
  {
    var x := (a as int) * 256 + b;
    var y := x * 256 + c;
    LastDigit(y, d);
    LastDigit(x, c);
    LastDigit(a, b);
    LastDigit(0, a);
  }

  lemma LastDigit(x: nat, d: byte)
    ensures (x * 256 + d) / 256 == x && (x * 256 + d) % 256 == d
  {}

  lemma LengthReads(short: int, ext: seq<byte>, n: nat)
    requires WritesLength(short, ext, n)
    ensures 0 <= short < 128 && |ext| == (if short == 126 then 2 else if short == 127 then 8 else 0)
    ensures n == (if |ext| == 0 then short else FromBigEndian(ext)) < U64
  {
    if |ext| == 2 { assert Pow256(2) == 65536; BigEndianRoundTrip(n, 2); }
    if |ext| == 8 { Pow256Of8(); BigEndianRoundTrip(n, 8); }
  }

  lemma LengthWrites(short: int, ext: seq<byte>)
    requires 0 <= short < 128 && |ext| == (if short == 126 then 2 else if short == 127 then 8 else 0)
    ensures WritesLength(short, ext, if |ext| == 0 then short else FromBigEndian(ext))
  {
    BigEndianBack(ext);
    FromBigEndianBound(ext);
    assert Pow256(2) == 65536;
    Pow256Of8();
  }

  /** What is written as a head is decoded as one, whatever follows it. */
  lemma HeadDecodes(data: seq<byte>, h: Head, reserved: Reserved, short: int, ext: seq<byte>, k: nat)
    requires k <= |data| && Writes(data[..k], h, reserved, short, ext)
    ensures DecodeHeader(data) == Some(Header(k, h.length, h.masked, h.key))
    ensures (data[0] >= 128) == h.fin && data[0] % 16 == h.opcode
  {
    hide BigEndian, FromBigEndian, DecodeKey, WritesLength;
    LengthReads(short, ext, h.length);
    var w := data[..k];
    assert data[0] == w[0] && data[1] == w[1];
    assert data[2..2 + |ext|] == w[2..2 + |ext|] == ext;
    if h.masked {
      assert data[2 + |ext|..2 + |ext| + 4] == w[2 + |ext|..] == BigEndian(h.key, 4);
      KeyReads(h.key, data, 2 + |ext|);
    }
  }

  /** What is decoded as a head was written as one. */
  lemma HeadWritten(data: seq<byte>)
    requires DecodeHeader(data).Some?
    ensures var Header(size, length, masked, key) := DecodeHeader(data).value;
            IsHead(data[..size], Head(data[0] >= 128, data[0] % 16, masked, key, length))
  {
    hide BigEndian, FromBigEndian, DecodeKey, WritesLength;
    var Header(size, length, masked, key) := DecodeHeader(data).value;
    var short, reserved := data[1] % 128, data[0] / 16 % 8;
    var ext := data[2..2 + if short == 126 then 2 else if short == 127 then 8 else 0];
    LengthWrites(short, ext);
    if masked { KeyBack(data, 2 + |ext|); }
    var h := Head(data[0] >= 128, data[0] % 16, masked, key, length);
    LeadByte(data[0]);
    SplitHead(data, |ext|, if masked then 4 else 0);
    assert data[1] == (if masked then 128 else 0) + short;
    assert size == 2 + |ext| + if masked then 4 else 0;
    assert data[..size] == HeadBytes(h, reserved, short, ext);
    hide HeadBytes, DecodeHeader;
    assert Writes(data[..size], h, reserved, short, ext);
  }

  lemma SplitHead(data: seq<byte>, e: nat, m: nat)
    requires 2 + e + m <= |data|
    ensures data[..2 + e + m] == [data[0]] + [data[1]] + data[2..2 + e] + data[2 + e..2 + e + m]
  {}

  lemma LeadByte(b: byte)
    ensures b == (if b >= 128 then 128 else 0) + 16 * (b / 16 % 8) + b % 16
  {}

  // ---- Frames ---------------------------------------------------------------------------------

  /** A frame is decoded exactly where one is written: the first bytes of the buffer are those of the frame. */
  lemma DecodesIff(data: seq<byte>, n: nat, f: Frame)
    ensures DecodeSpec(data) == Got(n, f) <==> n <= |data| && n < U64 && IsWire(data[..n], f)
  {
    hide DecodeHeader, Masked, IsHead;
    if DecodeSpec(data) == Got(n, f) {
      var Header(size, length, masked, key) := DecodeHeader(data).value;
      HeadWritten(data);
      var body := data[size..n];
      if masked { MaskedInvolutive(body, key); }
      assert data[..n][..size] == data[..size] && data[..n][size..] == body;
      assert HeadOf(f) == Head(data[0] >= 128, data[0] % 16, masked, key, length);
      assert IsWire(data[..n], f);
    }
    if n <= |data| && n < U64 && IsWire(data[..n], f) { WireDecodes(data, n, f); }
  }

  lemma WireDecodes(data: seq<byte>, n: nat, f: Frame)
    requires n <= |data| && n < U64 && IsWire(data[..n], f)
    ensures DecodeSpec(data) == Got(n, f)
  {
    hide DecodeHeader, Masked, Writes;
    var w := data[..n];
    var k :| 0 <= k <= |w| && IsHead(w[..k], HeadOf(f))
          && w[k..] == if f.masked then Masked(f.payload, f.maskKey) else f.payload;
    assert w[..k] == data[..k] && w[k..] == data[k..n];
    var reserved, short, ext :| Writes(w[..k], HeadOf(f), reserved, short, ext);
    HeadDecodes(data, HeadOf(f), reserved, short, ext, k);
    if f.masked { MaskedInvolutive(f.payload, f.maskKey); }
  }

  /** Decoding gives up exactly at a head whose frame would be longer than a 64-bit size can say. */
  lemma GivesUpIff(data: seq<byte>)
    ensures DecodeSpec(data) == TooLong
       <==> exists k, h :: 0 <= k <= |data| && IsHead(data[..k], h) && k + h.length >= U64
  {
    hide DecodeHeader, Masked, Writes;
    if DecodeSpec(data) == TooLong {
      HeadWritten(data);
      var Header(size, length, masked, key) := DecodeHeader(data).value;
      var h := Head(data[0] >= 128, data[0] % 16, masked, key, length);
      assert IsHead(data[..size], h) && size + h.length >= U64;
    }
    if exists k, h :: 0 <= k <= |data| && IsHead(data[..k], h) && k + h.length >= U64 {
      var k, h :| 0 <= k <= |data| && IsHead(data[..k], h) && k + h.length >= U64;
      var reserved, short, ext :| Writes(data[..k], h, reserved, short, ext);
      HeadDecodes(data, h, reserved, short, ext, k);
    }
  }

  /** A buffer that starts with whole frames drains to them, and then as the rest does. */
  lemma {:induction false} WiresDrain(ws: seq<seq<byte>>, fs: seq<Frame>, rest: seq<byte>)
    requires |ws| == |fs| && forall i :: 0 <= i < |ws| ==> |ws[i]| < U64 && IsWire(ws[i], fs[i])
    ensures var d := Drain(rest); Drain(Flatten(ws) + rest) == Drained(fs + d.frames, d.rest, d.failed)
    decreases |ws|
  {
    hide DecodeSpec, IsWire;
    if ws == [] {
      assert Flatten(ws) + rest == rest && fs + Drain(rest).frames == Drain(rest).frames;
    } else {
      var w, more := ws[0], Flatten(ws[1..]) + rest;
      assert Flatten(ws) + rest == w + more;
      assert (w + more)[..|w|] == w && (w + more)[|w|..] == more;
      DecodesIff(w + more, |w|, fs[0]);
      WiresDrain(ws[1..], fs[1..], rest);
      assert [fs[0]] + (fs[1..] + Drain(rest).frames) == fs + Drain(rest).frames;
    }
  }

  /** Byte `i` of a payload is masked with byte `i` mod 4 of the key as it is on the wire. */
  lemma MaskedByWireKey(data: seq<byte>, key: Key32, i: nat)
    requires i < |data|
    ensures Masked(data, key)[i] == Xor(data[i], BigEndian(key, 4)[i % 4])
  {
    hide Xor, BigEndian;
    FourDigits(key);
    KeyDigits(key);
  }

  lemma KeyDigits(key: Key32)
    ensures key / 256 / 256 / 256 % 256 == key / 0x100_0000 && key / 256 / 256 % 256 == key / 0x1_0000 % 256
  {}

  /** The server's frames are the shortest on the wire for what they say. */
  lemma EncodesShortest(f: Frame, w: seq<byte>)
    requires !f.masked && f.maskKey == 0 && |f.payload| + 10 < U64
    ensures IsWire(EncodeSpec(f), f)
    ensures IsWire(w, f) ==> |EncodeSpec(f)| <= |w|
  {
    var e := EncodeSpec(f);
    EncodeDecode(f, []);
    assert e + [] == e && e[..|e|] == e;
    DecodesIff(e, |e|, f);
    hide DecodeSpec;
    if IsWire(w, f) {
      var k :| 0 <= k <= |w| && IsHead(w[..k], HeadOf(f))
            && w[k..] == if f.masked then Masked(f.payload, f.maskKey) else f.payload;
      var reserved, short, ext :| Writes(w[..k], HeadOf(f), reserved, short, ext);
      assert k == 2 + |ext|;
    }
  }
}
