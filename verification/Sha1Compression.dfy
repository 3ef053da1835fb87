/** The SHA-1 compression of daemon/debug/ws_frame.cpp, against section 6.1.2 of FIPS 180-4. */
module Sha1Compression {
  import opened Bytes
  import opened Words

  datatype Hash = Hash(a: word, b: word, c: word, d: word, e: word)

  /** Section 5.3.1. */
  const H0 := Hash(0x6745_2301, 0xEFCD_AB89, 0x98BA_DCFE, 0x1032_5476, 0xC3D2_E1F0)

  type Block = s: seq<byte> | |s| == 64 witness seq(64, i => 0)

  function Word(block: Block, t: nat): word
    requires t < 16
  {
    FourBytes(block[4 * t], block[4 * t + 1], block[4 * t + 2], block[4 * t + 3])
  }

  function FourBytes(a: int, b: int, c: int, d: int): int {
    a * 0x100_0000 + b * 0x1_0000 + c * 0x100 + d
  }

  /** The message schedule from its first words on, section 6.1.2 step 1. */
  function Extend(w: seq<word>): (r: seq<word>)
    requires 16 <= |w| <= 80
    ensures |r| == 80
    decreases 80 - |w|
  {
    var t := |w|;
    if t == 80 then w
    else Extend(w + [Rotl1(Xor32(Xor32(Xor32(w[t - 3], w[t - 8]), w[t - 14]), w[t - 16]))])
  }

  function FirstWords(block: Block): (r: seq<word>)
    ensures |r| == 16
  {
    seq(16, t requires 0 <= t < 16 => Word(block, t))
  }

  /** Section 4.1.1. */
  function Ch(x: word, y: word, z: word): word { Xor32(And(x, y), And(Not(x), z)) }

  function Parity(x: word, y: word, z: word): word { Xor32(Xor32(x, y), z) }

  function Maj(x: word, y: word, z: word): word { Xor32(Xor32(And(x, y), And(x, z)), And(y, z)) }

  function F(t: nat, x: word, y: word, z: word): word {
    if t < 20 then Ch(x, y, z) else if 40 <= t < 60 then Maj(x, y, z) else Parity(x, y, z)
  }

  /** Section 4.2.1. */
  function K(t: nat): word {
    if t < 20 then 0x5A82_7999 else if t < 40 then 0x6ED9_EBA1 else if t < 60 then 0x8F1B_BCDC else 0xCA62_C1D6
  }

  /** One round, section 6.1.2 step 3. */
  function Round(h: Hash, t: nat, w: word): Hash {
    var T := Add(Add(Add(Add(Rotl5(h.a), F(t, h.b, h.c, h.d)), h.e), K(t)), w);
    Hash(T, h.a, Rotl30(h.b), h.c, h.d)
  }

  /** Rounds `t` up to the end of the schedule. */
  function Rounds(h: Hash, t: nat, w: seq<word>): Hash
    requires t <= |w|
    decreases |w| - t
  {
    if t == |w| then h else Rounds(Round(h, t, w[t]), t + 1, w)
  }

  function Sum(h: Hash, r: Hash): Hash {
    Hash(Add(h.a, r.a), Add(h.b, r.b), Add(h.c, r.c), Add(h.d, r.d), Add(h.e, r.e))
  }

  function Compress(h: Hash, block: Block): Hash {
    Sum(h, Rounds(h, 0, Extend(FirstWords(block))))
  }

  /** The schedule loops of `process_block`. */
  method BuildSchedule(buffer: array<byte>) returns (w: array<word>)
    requires buffer.Length == 64
    ensures w.Length == 80 && fresh(w) && w[..] == Extend(FirstWords(buffer[..]))
  {
    hide Extend;
    w := new word[80];
    for i := 0 to 16
      invariant forall j :: 0 <= j < i ==> w[j] == Word(buffer[..], j)
    {
      w[i] := FourBytes(buffer[i * 4], buffer[i * 4 + 1], buffer[i * 4 + 2], buffer[i * 4 + 3]);
    }
    ghost var first := FirstWords(buffer[..]);
    assert w[..16] == first;
    ExtendSchedule(w, first);
  }

  method ExtendSchedule(w: array<word>, ghost first: seq<word>)
    requires w.Length == 80 && |first| == 16 && w[..16] == first
    modifies w
    ensures w[..] == Extend(first)
  {
    hide Rotl1, Xor32;
    for i := 16 to 80
      invariant Extend(w[..i]) == Extend(first)
    {
      var val := Xor32(Xor32(Xor32(w[i - 3], w[i - 8]), w[i - 14]), w[i - 16]);
      ghost var before := w[..i];
      w[i] := Rotl1(val);
      assert w[..i + 1] == before + [Rotl1(val)];
    }
    assert w[..80] == w[..];
  }

  /** The choice of function and constant in the round loop, in the source's own forms. */
  method Choose(i: nat, b: word, c: word, d: word) returns (f: word, k: word)
    ensures f == F(i, b, c, d) && k == K(i)
  {
    if i < 20 {
      f, k := Or(And(b, c), And(Not(b), d)), 0x5A82_7999;
      ChForms(b, c, d, 32);
    } else if i < 40 {
      f, k := Xor32(Xor32(b, c), d), 0x6ED9_EBA1;
    } else if i < 60 {
      f, k := Or(Or(And(b, c), And(b, d)), And(c, d)), 0x8F1B_BCDC;
      MajForms(b, c, d, 32);
    } else {
      f, k := Xor32(Xor32(b, c), d), 0xCA62_C1D6;
    }
  }

  method ProcessBlock(h: Hash, buffer: array<byte>) returns (r: Hash)
    requires buffer.Length == 64
    ensures r == Compress(h, buffer[..])
  {
    var w := BuildSchedule(buffer);
    ghost var ws := w[..];
    var Hash(a, b, c, d, e) := h;
    for i := 0 to 80
      invariant w[..] == ws
      invariant Rounds(Hash(a, b, c, d, e), i, ws) == Rounds(h, 0, ws)
    {
      var f, k := Choose(i, b, c, d);
      var temp := Add(Add(Add(Add(Rotl5(a), f), e), k), w[i]);
      assert Round(Hash(a, b, c, d, e), i, ws[i]) == Hash(temp, a, Rotl30(b), c, d);
      e := d;
      d := c;
      c := Rotl30(b);
      b := a;
      a := temp;
    }
    r := Sum(h, Hash(a, b, c, d, e));
  }

  function WordsBytes(words: seq<word>): (s: seq<byte>)
    ensures |s| == 4 * |words|
  {
    if words == [] then [] else WordsBytes(words[..|words| - 1]) + BigEndian(words[|words| - 1], 4)
  }

  /** The bytes of the final hash words, most significant first. */
  function Digest(h: Hash): (s: seq<byte>)
    ensures |s| == 20
  {
    WordsBytes([h.a, h.b, h.c, h.d, h.e])
  }

  method HashBytes(h: Hash) returns (hash: seq<byte>)
    ensures hash == Digest(h)
  {
    var words := [h.a, h.b, h.c, h.d, h.e];
    hash := [];
    for j := 0 to 5
      invariant hash == WordsBytes(words[..j])
    {
      var x := words[j];
      FourDigits(x);
      assert words[..j + 1][..j] == words[..j];
      hash := hash + [x / 256 / 256 / 256 % 256, x / 256 / 256 % 256, x / 256 % 256, x % 256];
    }
    assert words[..5] == words;
  }
}
