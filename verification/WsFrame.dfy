/** The RFC 6455 frame codec of the debug channel (daemon/debug/ws_frame.cpp). */
module WsFrame {
  import opened Bytes

  const U64 := 0x1_0000_0000_0000_0000

  const TEXT := 1
  const CLOSE := 8
  const PING := 9
  const PONG := 10

  type Opcode = x: int | 0 <= x < 16
  type Key32 = x: int | 0 <= x < 0x1_0000_0000

  datatype Frame = Frame(fin: bool, opcode: Opcode, masked: bool, maskKey: Key32, payload: seq<byte>)

  /** `TooLong`: the declared length overflows the 64-bit size computation, so the length test
      passes and the source asks its vector for about 2^64 bytes, which throws. */
  datatype Decoded = NeedMore | Got(consumed: nat, frame: Frame) | TooLong

  // ---- Specifications -------------------------------------------------------------------------

  function LengthField(n: nat): (s: seq<byte>)
    ensures 1 <= |s| <= 9 && s[0] <= 127
  {
    if n <= 125 then [n]
    else if n <= 65535 then [126] + BigEndian(n, 2)
    else [127] + BigEndian(n, 8)
  }

  function EncodeSpec(f: Frame): seq<byte> {
    [(if f.fin then 128 else 0) + f.opcode] + LengthField(|f.payload|) + f.payload
  }

  function MaskByte(key: Key32, i: nat): byte {
    if i % 4 == 0 then key / 0x100_0000
    else if i % 4 == 1 then key / 0x1_0000 % 256
    else if i % 4 == 2 then key / 256 % 256
    else key % 256
  }

  function Masked(data: seq<byte>, key: Key32): (r: seq<byte>)
    ensures |r| == |data|
  {
    seq(|data|, i requires 0 <= i < |data| => Xor(data[i], MaskByte(key, i)))
  }

  /** Addition of 64-bit sizes. */
  function Add64(a: nat, b: nat): nat
    requires a < U64 && b < U64
  {
    if a + b < U64 then a + b else a + b - U64
  }

  /** The fixed part of a frame: where the payload starts, its length, and the masking key. */
  datatype Header = Header(size: nat, length: nat, masked: bool, key: Key32)

  function DecodeKey(data: seq<byte>, pos: nat): Key32
    requires pos + 4 <= |data|
  {
    (data[pos] as int) * 0x100_0000 + (data[pos + 1] as int) * 0x1_0000 + (data[pos + 2] as int) * 256 + data[pos + 3]
  }

  function DecodeHeader(data: seq<byte>): (r: Option<Header>)
    ensures r.Some? ==> 2 <= r.value.size <= |data| && r.value.size <= 14 && r.value.length < U64
  {
    if |data| < 2 then None
    else
      var masked := data[1] >= 128;
      var short := data[1] % 128;
      var ext := if short == 126 then 2 else if short == 127 then 8 else 0;
      if |data| < 2 + ext then None
      else
        var length := if ext == 0 then short else FromBigEndian(data[2..2 + ext]);
        assert length < U64 by { FromBigEndianBound(data[2..2 + ext]); Pow256Of8(); assert Pow256(2) == 65536; }
        if masked && |data| < 2 + ext + 4 then None
        else if masked then Some(Header(2 + ext + 4, length, true, DecodeKey(data, 2 + ext)))
        else Some(Header(2 + ext, length, false, 0))
  }

  function DecodeSpec(data: seq<byte>): (r: Decoded)
    ensures r.Got? ==> 2 <= r.consumed <= |data|
  {
    var h := DecodeHeader(data);
    if h.None? then NeedMore
    else
      var Header(size, length, masked, key) := h.value;
      if |data| < Add64(size, length) then NeedMore
      else if size + length >= U64 || |data| < size + length then TooLong
      else
        var body := data[size..size + length];
        Got(size + length,
            Frame(data[0] >= 128, data[0] % 16, masked, key, if masked then Masked(body, key) else body))
  }

  /** A frame as a client sends it: the payload masked as in section 5.3 of RFC 6455. */
  function ClientBytes(f: Frame): seq<byte> {
    var len := LengthField(|f.payload|);
    [(if f.fin then 128 else 0) + f.opcode] + [len[0] + 128] + len[1..] + BigEndian(f.maskKey, 4)
    + Masked(f.payload, f.maskKey)
  }

  // ---- Codec methods --------------------------------------------------------------------------

  method ApplyMask(data: array<byte>, key: Key32)
    modifies data
    ensures data[..] == Masked(old(data[..]), key)
  {
    var mask: seq<byte> := [key / 0x100_0000, key / 0x1_0000 % 256, key / 256 % 256, key % 256];
    for i := 0 to data.Length
      invariant forall j :: 0 <= j < i ==> data[j] == Xor(old(data[j]), MaskByte(key, j))
      invariant forall j :: i <= j < data.Length ==> data[j] == old(data[j])
    {
      assert mask[i % 4] == MaskByte(key, i);
      data[i] := Xor(data[i], mask[i % 4]);
    }
  }

  method Encode(f: Frame) returns (result: seq<byte>)
    requires |f.payload| < U64
    ensures result == EncodeSpec(f)
  {
    result := [(if f.fin then 128 else 0) + f.opcode];
    var n := |f.payload|;
    if n <= 125 {
      result := result + [n];
    } else if n <= 65535 {
      result := result + [126];
      result := result + [n / 256];
      result := result + [n % 256];
      assert BigEndian(n, 2) == BigEndian(n / 256, 1) + [n % 256] && BigEndian(n / 256, 1) == [n / 256];
    } else {
      result := result + [127];
      ghost var head := result;
      var i := 8;
      while i > 0
        invariant 0 <= i <= 8
        invariant result == head + BigEndian(ShiftRight8(n, i), 8 - i)
      {
        i := i - 1;
        result := result + [ShiftRight8(n, i) % 256];
      }
    }
    result := result + f.payload;
  }

  /** The accumulation loop over the eight length bytes, in 64-bit arithmetic. */
  method ReadLength64(data: seq<byte>, pos: nat) returns (length: nat)
    requires pos + 8 <= |data|
    ensures length == FromBigEndian(data[pos..pos + 8]) < U64
  {
    length := 0;
    Pow256Of8();
    for i := 0 to 8
      invariant length == FromBigEndian(data[pos..pos + i]) < U64
    {
      var d := data[pos..pos + i + 1];
      assert d[..i] == data[pos..pos + i];
      FromBigEndianBound(d);
      Pow256Mono(i + 1, 8);
      length := (length * 256 + (data[pos + i] as int)) % U64;
    }
  }

  lemma TwoBytes(a: byte, b: byte)
    ensures FromBigEndian([a, b]) == a * 256 + b
  {
    assert [a, b][..1] == [a] && [a][..0] == [];
    assert FromBigEndian([a]) == FromBigEndian([]) * 256 + a;
  }

  /** The part of `decode` before the payload. */
  method ReadHeader(data: seq<byte>) returns (h: Option<Header>)
    ensures h == DecodeHeader(data)
  {
    if |data| < 2 { return None; }
    var masked := data[1] >= 128;
    var length: nat := data[1] % 128;
    var pos := 2;
    if length == 126 {
      if |data| < pos + 2 { return None; }
      TwoBytes(data[2], data[3]);
      assert data[2..4] == [data[2], data[3]];
      length := (data[pos] as int) * 256 + data[pos + 1];
      pos := pos + 2;
    } else if length == 127 {
      if |data| < pos + 8 { return None; }
      length := ReadLength64(data, pos);
      pos := pos + 8;
    }
    var key: Key32 := 0;
    if masked {
      if |data| < pos + 4 { return None; }
      key := (data[pos] as int) * 0x100_0000 + (data[pos + 1] as int) * 0x1_0000 + (data[pos + 2] as int) * 256 +
          data[pos + 3];
      pos := pos + 4;
    }
    h := Some(Header(pos, length, masked, key));
  }

  method Decode(data: seq<byte>) returns (r: Decoded)
    requires |data| <= 0x7FFF_FFFF  // the source returns the size as an int
    ensures r == DecodeSpec(data)
  {
    var h := ReadHeader(data);
    if h.None? { return NeedMore; }
    var Header(pos, length, masked, key) := h.value;
    if |data| < Add64(pos, length) { return NeedMore; }
    if pos + length > |data| { return TooLong; }  // resizing the payload throws
    var payload := new byte[length](i requires 0 <= i < length => data[pos + i]);
    assert payload[..] == data[pos..pos + length];
    if masked && length > 0 {
      ApplyMask(payload, key);
    }
    r := Got(pos + length, Frame(data[0] >= 128, data[0] % 16, masked, key, payload[..]));
  }

  lemma {:induction false} Pow256Mono(a: nat, b: nat)
    requires a <= b
    ensures Pow256(a) <= Pow256(b)
    decreases b - a
  {
    if a < b { Pow256Mono(a + 1, b); }
  }

  // ---- Round trips ----------------------------------------------------------------------------

  lemma LengthFieldReads(n: nat, lead: byte, rest: seq<byte>, maskBit: bool)
    requires n < U64
    ensures var len := LengthField(n);
            var data := [lead] + [len[0] + if maskBit then 128 else 0] + len[1..] + rest;
            var short := data[1] % 128;
            var ext := if short == 126 then 2 else if short == 127 then 8 else 0;
            && ext == |len| - 1
            && (if ext == 0 then short else FromBigEndian(data[2..2 + ext])) == n
  {
    var len := LengthField(n);
    assert n > 65535 ==> FromBigEndian(BigEndian(n, 8)) == n by {
      if n > 65535 { Pow256Of8(); BigEndianRoundTrip(n, 8); }
    }
    assert n <= 65535 ==> FromBigEndian(BigEndian(n, 2)) == n by {
      if n <= 65535 { assert Pow256(2) == 65536; BigEndianRoundTrip(n, 2); }
    }
    hide BigEndian, FromBigEndian;
    var data := [lead] + [len[0] + if maskBit then 128 else 0] + len[1..] + rest;
    assert data[2..2 + |len| - 1] == len[1..];
  }

  lemma ServerHeaderReads(f: Frame, rest: seq<byte>)
    requires |f.payload| < U64
    ensures var n := |LengthField(|f.payload|)|;
            var data := EncodeSpec(f) + rest;
            && DecodeHeader(data) == Some(Header(1 + n, |f.payload|, false, 0))
            && data[0] == (if f.fin then 128 else 0) + f.opcode
            && data[1 + n..] == f.payload + rest
  {
    hide FromBigEndian, BigEndian;
    var len := LengthField(|f.payload|);
    var lead := (if f.fin then 128 else 0) + f.opcode;
    var data := EncodeSpec(f) + rest;
    assert data == [lead] + [len[0]] + len[1..] + (f.payload + rest);
    LengthFieldReads(|f.payload|, lead, f.payload + rest, false);
  }

  /** What the server encodes, any decoder reading from the front of a longer buffer gets back, for
      all three length forms. */
  lemma EncodeDecode(f: Frame, rest: seq<byte>)
    requires |f.payload| + 10 < U64
    ensures DecodeSpec(EncodeSpec(f) + rest)
         == Got(|EncodeSpec(f)|, f.(masked := false, maskKey := 0))
  {
    ServerHeaderReads(f, rest);
    var n, m := 1 + |LengthField(|f.payload|)|, |f.payload|;
    var data := EncodeSpec(f) + rest;
    assert |EncodeSpec(f)| == n + m;
    hide DecodeHeader, EncodeSpec, Masked, LengthField;
    assert data[n..n + m] == data[n..][..m] == f.payload;
  }

  lemma MaskedInvolutive(data: seq<byte>, key: Key32)
    ensures Masked(Masked(data, key), key) == data
  {
    forall i | 0 <= i < |data| ensures Masked(Masked(data, key), key)[i] == data[i] {
      XorInvolutive(data[i], MaskByte(key, i));
    }
  }

  lemma KeyReads(key: Key32, data: seq<byte>, pos: nat)
    requires pos + 4 <= |data| && data[pos..pos + 4] == BigEndian(key, 4)
    ensures DecodeKey(data, pos) == key
  {
    FourDigits(key);
    hide BigEndian;
    var d := data[pos..pos + 4];
    assert d[0] == data[pos] && d[1] == data[pos + 1] && d[2] == data[pos + 2] && d[3] == data[pos + 3];
    SumOfDigits(key, key / 256, key / 256 / 256, key / 256 / 256 / 256);
  }

  lemma SumOfDigits(key: Key32, a: int, b: int, c: int)
    requires a == key / 256 && b == a / 256 && c == b / 256
    ensures c % 256 * 0x100_0000 + b % 256 * 0x1_0000 + a % 256 * 256 + key % 256 == key
  {}

  lemma ClientHeaderReads(f: Frame, rest: seq<byte>)
    requires |f.payload| < U64
    ensures var n := |LengthField(|f.payload|)|;
            var data := ClientBytes(f) + rest;
            && DecodeHeader(data) == Some(Header(5 + n, |f.payload|, true, f.maskKey))
            && data[0] == (if f.fin then 128 else 0) + f.opcode
            && data[5 + n..] == Masked(f.payload, f.maskKey) + rest
  {
    hide FromBigEndian, BigEndian, DecodeKey, LengthField, Masked;
    var len, key := LengthField(|f.payload|), BigEndian(f.maskKey, 4);
    var lead := (if f.fin then 128 else 0) + f.opcode;
    var body := Masked(f.payload, f.maskKey) + rest;
    var data := ClientBytes(f) + rest;
    ClientLayout([lead], [(len[0] as int) + 128], len[1..], key, body);
    assert data == [lead] + [len[0] + 128] + len[1..] + (key + body);
    LengthFieldReads(|f.payload|, lead, key + body, true);
    KeyReads(f.maskKey, data, 1 + |len|);
  }

  lemma ClientLayout(a: seq<byte>, b: seq<byte>, c: seq<byte>, key: seq<byte>, body: seq<byte>)
    requires |a| == |b| == 1
    ensures var data := a + b + c + (key + body);
            && data[2 + |c|..2 + |c| + |key|] == key
            && data[2 + |c| + |key|..] == body
            && data[0] == a[0]
  {
  }

  /** A client frame, masked on the wire, decodes to its unmasked payload. */
  lemma MaskedFrameDecodes(f: Frame, rest: seq<byte>)
    requires |f.payload| + 14 < U64
    ensures DecodeSpec(ClientBytes(f) + rest) == Got(|ClientBytes(f)|, f.(masked := true))
  {
    ClientHeaderReads(f, rest);
    var n, m := 5 + |LengthField(|f.payload|)|, |f.payload|;
    var data := ClientBytes(f) + rest;
    assert |ClientBytes(f)| == n + m;
    MaskedInvolutive(f.payload, f.maskKey);
    hide DecodeHeader, ClientBytes, Masked, LengthField;
    assert data[n..n + m] == data[n..][..m] == Masked(f.payload, f.maskKey);
  }

  // ---- Independence of chunking ---------------------------------------------------------------

  lemma HeaderStable(data: seq<byte>, more: seq<byte>)
    requires DecodeHeader(data).Some?
    ensures DecodeHeader(data + more) == DecodeHeader(data)
  {
    var short := data[1] % 128;
    var ext := if short == 126 then 2 else if short == 127 then 8 else 0;
    assert (data + more)[2..2 + ext] == data[2..2 + ext];
  }

  /** Once the decoder has an answer, later bytes do not change it. */
  lemma DecodeStable(data: seq<byte>, more: seq<byte>)
    requires !DecodeSpec(data).NeedMore?
    ensures DecodeSpec(data + more) == DecodeSpec(data)
  {
    HeaderStable(data, more);
    hide DecodeHeader;
    var Header(size, length, _, _) := DecodeHeader(data).value;
    hide Masked;
    if size + length <= |data| {
      assert (data + more)[size..size + length] == data[size..size + length];
    }
  }

  /** No proper prefix of a frame yields anything. */
  lemma ProperPrefixNeedsMore(data: seq<byte>, k: nat)
    requires DecodeSpec(data).Got? && k < DecodeSpec(data).consumed
    ensures DecodeSpec(data[..k]) == NeedMore
  {
    assert data == data[..k] + data[k..];
    if DecodeSpec(data[..k]) != NeedMore {
      DecodeStable(data[..k], data[k..]);
    }
  }

  /** The drain loop of `process_client_data` on a buffer, ignoring what the frames do: the frames
      in order, what is left, and whether a length overflow stopped it. */
  datatype Drained = Drained(frames: seq<Frame>, rest: seq<byte>, failed: bool)

  function Drain(data: seq<byte>): Drained
    decreases |data|
  {
    match DecodeSpec(data)
    case NeedMore => Drained([], data, false)
    case TooLong => Drained([], data, true)
    case Got(n, f) =>
      var d := Drain(data[n..]);
      Drained([f] + d.frames, d.rest, d.failed)
  }

  /** Draining a longer buffer is draining the first part and then the leftover with the rest. */
  lemma {:induction false} DrainAppend(a: seq<byte>, b: seq<byte>)
    ensures var d := Drain(a);
            Drain(a + b) == if d.failed then d.(rest := d.rest + b)
                            else var e := Drain(d.rest + b); e.(frames := d.frames + e.frames)
    decreases |a|
  {
    hide DecodeSpec;
    match DecodeSpec(a)
    case NeedMore =>
      assert Drain(a).frames + Drain(a + b).frames == Drain(a + b).frames;
    case TooLong => DecodeStable(a, b);
    case Got(n, f) =>
      DecodeStable(a, b);
      assert (a + b)[n..] == a[n..] + b;
      DrainAppend(a[n..], b);
      var d := Drain(a[n..]);
      if !d.failed {
        assert [f] + (d.frames + Drain(d.rest + b).frames) == ([f] + d.frames) + Drain(d.rest + b).frames;
      }
  }

  function DrainChunks(rest: seq<byte>, chunks: seq<seq<byte>>): Drained
    decreases |chunks|
  {
    if chunks == [] then Drain(rest)
    else
      var d := Drain(rest + chunks[0]);
      if d.failed then d.(rest := d.rest + Flatten(chunks[1..]))
      else var e := DrainChunks(d.rest, chunks[1..]); e.(frames := d.frames + e.frames)
  }

  /** However a stream is cut into chunks, draining after every chunk gives the frames of the whole. */
  lemma {:induction false} ChunkingInvisible(rest: seq<byte>, chunks: seq<seq<byte>>)
    ensures DrainChunks(rest, chunks) == Drain(rest + Flatten(chunks))
    decreases |chunks|
  {
    if chunks == [] {
      assert rest + Flatten(chunks) == rest;
    } else {
      var tail := Flatten(chunks[1..]);
      assert rest + Flatten(chunks) == (rest + chunks[0]) + tail;
      DrainAppend(rest + chunks[0], tail);
      var d := Drain(rest + chunks[0]);
      if !d.failed { ChunkingInvisible(d.rest, chunks[1..]); }
    }
  }
}
