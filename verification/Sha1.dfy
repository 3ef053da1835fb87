/** The streaming SHA-1 of daemon/debug/ws_frame.cpp, against the one-shot hash of FIPS 180-4. */
module Sha1 {
  import opened Bytes
  import opened Sha1Compression

  /** The compression function over the successive blocks of `s`. */
  function FoldBlocks(h: Hash, s: seq<byte>): Hash {
    if |s| < 64 then h else Compress(FoldBlocks(h, s[..|s| - 64]), s[|s| - 64..])
  }

  function Zeros(n: nat): (s: seq<byte>)
    ensures |s| == n
  {
    if n == 0 then [] else Zeros(n - 1) + [0]
  }

  function ZeroCount(n: nat): nat { (55 - n) % 64 }

  /** Section 5.1.1 for whole bytes: one bit, zeros, and the length in bits. */
  function Pad(m: seq<byte>): seq<byte> {
    m + [0x80] + Zeros(ZeroCount(|m|)) + BigEndian(8 * |m|, 8)
  }

  lemma PadWhole(m: seq<byte>)
    ensures |Pad(m)| % 64 == 0
  {
    hide Zeros, BigEndian, ZeroCount;
    ZeroCountLeast(|m|, 0);
    assert |Pad(m)| == (|m| + 1 + ZeroCount(|m|)) + 8;
  }

  /** The number of zeros is the least one that the standard allows. */
  lemma ZeroCountLeast(n: nat, k: nat)
    ensures (n + 1 + ZeroCount(n)) % 64 == 56
    ensures (n + 1 + k) % 64 == 56 ==> ZeroCount(n) <= k
  {}

  function Sha1Of(m: seq<byte>): (s: seq<byte>)
    ensures |s| == 20
  {
    Digest(FoldBlocks(H0, Pad(m)))
  }

  // ---- The streaming form ---------------------------------------------------------------------

  class Sha1 {
    var h: Hash
    var buffer: array<byte>
    var bufferLen: nat
    var totalLen: nat
    ghost var fed: seq<byte>  // every byte put into the buffer so far
    ghost var turns: nat  // blocks processed so far

    /** The state determined by the bytes fed so far; the buffer may be full in mid-operation. */
    ghost predicate Holds()
      reads this`h, this`buffer, this`bufferLen, this`fed, this`turns, buffer
    {
      && buffer.Length == 64
      && bufferLen <= 64
      && |fed| == 64 * turns + bufferLen
      && buffer[..bufferLen] == fed[64 * turns..]
      && h == FoldBlocks(H0, fed[..64 * turns])
    }

    ghost predicate Valid()
      reads this, buffer
    {
      Holds() && bufferLen < 64 && totalLen == |fed| % 0x1_0000_0000_0000_0000
    }

    constructor ()
      ensures Valid() && fresh(buffer) && fed == []
    {
      h := H0;
      buffer := new byte[64](_ => 0);
      bufferLen, totalLen := 0, 0;
      fed, turns := [], 0;
    }

    /** Appends one byte; the buffer may become full. */
    method Push(b: byte)
      requires Holds() && bufferLen < 64
      modifies this`bufferLen, this`fed, buffer
      ensures Holds() && bufferLen == old(bufferLen) + 1 && fed == old(fed) + [b]
    {
      buffer[bufferLen] := b;
      bufferLen := bufferLen + 1;
      fed := fed + [b];
      assert fed[..64 * turns] == old(fed[..64 * turns]);
      assert buffer[..bufferLen] == old(buffer[..bufferLen]) + [b];
    }

    /** `process_block` on a full buffer, and emptying it. */
    method Turn()
      requires Holds() && bufferLen == 64
      modifies this`h, this`bufferLen, this`turns
      ensures Holds() && bufferLen == 0
      ensures h == FoldBlocks(H0, fed)
    {
      hide Compress;
      assert fed[..64 * (turns + 1)] == fed;
      assert fed[..|fed| - 64] == fed[..64 * turns] && fed[|fed| - 64..] == buffer[..64] == buffer[..];
      h := ProcessBlock(h, buffer);
      bufferLen := 0;
      turns := turns + 1;
      assert fed[..64 * turns] == fed;
    }

    method Update(data: seq<byte>)
      requires Valid()
      modifies this, buffer
      ensures Valid() && buffer == old(buffer)
      ensures fed == old(fed) + data
    {
      hide Holds;
      for i := 0 to |data|
        invariant Holds() && bufferLen < 64 && buffer == old(buffer) && totalLen == old(totalLen)
        invariant fed == old(fed) + data[..i]
      {
        Push(data[i]);
        if bufferLen == 64 { Turn(); }
      }
      LengthSum(|old(fed)|, |data|);
      totalLen := (totalLen + |data|) % 0x1_0000_0000_0000_0000;
      assert data[..|data|] == data;
    }

    /** One pass of the padding loop of `finalize`. */
    method PadStep()
      requires Holds() && bufferLen <= 64
      modifies this`h, this`bufferLen, this`turns, this`fed, buffer
      ensures Holds() && fed == old(fed) + [0]
      ensures bufferLen == if old(bufferLen) == 64 then 1 else old(bufferLen) + 1
    {
      hide Holds, FoldBlocks;
      if bufferLen == 64 { Turn(); }
      Push(0);
    }

    /** The padding loop of `finalize`, with `zeros` passes to go. */
    method PadZeros(ghost zeros: nat)
      requires Holds() && bufferLen <= 64
      requires zeros == if bufferLen <= 56 then 56 - bufferLen else 120 - bufferLen
      modifies this`h, this`bufferLen, this`turns, this`fed, buffer
      ensures Holds() && bufferLen == 56
      ensures fed == old(fed) + Zeros(zeros)
    {
      hide Holds;
      ghost var z := 0;
      while bufferLen != 56
        invariant Holds() && bufferLen <= 64
        invariant fed == old(fed) + Zeros(z)
        invariant z + (if bufferLen <= 56 then 56 - bufferLen else 120 - bufferLen) == zeros
        decreases zeros - z
      {
        PadStep();
        z := z + 1;
      }
    }

    /** The eight length bytes of `finalize`. */
    method PushLength(bits: nat)
      requires Holds() && bufferLen == 56
      modifies this`bufferLen, this`fed, buffer
      ensures Holds() && bufferLen == 64
      ensures fed == old(fed) + BigEndian(bits, 8)
    {
      hide Holds;
      var i := 8;
      while i > 0
        invariant 0 <= i <= 8
        invariant Holds() && bufferLen == 64 - i
        invariant fed == old(fed) + BigEndian(ShiftRight8(bits, i), 8 - i)
      {
        i := i - 1;
        Push(ShiftRight8(bits, i) % 256);
      }
    }

    /** The digest of everything fed, for messages short enough for a 64-bit bit count. */
    method Finalize() returns (hash: seq<byte>)
      requires Valid()
      modifies this, buffer
      ensures |old(fed)| < 0x2000_0000_0000_0000 ==> hash == Sha1Of(old(fed))
    {
      var bits := totalLen * 8 % 0x1_0000_0000_0000_0000;
      BitCount(|fed|);
      ZerosLeft(|fed|, turns, bufferLen);
      hide FoldBlocks, Holds, ZeroCount, BigEndian;
      Push(0x80);
      PadZeros(ZeroCount(|old(fed)|));
      PushLength(bits);
      Turn();
      hash := HashBytes(h);
    }
  }

  lemma LengthSum(a: nat, b: nat)
    ensures (a % 0x1_0000_0000_0000_0000 + b) % 0x1_0000_0000_0000_0000 == (a + b) % 0x1_0000_0000_0000_0000
  {}

  lemma BitCount(n: nat)
    ensures n < 0x2000_0000_0000_0000
        ==> n % 0x1_0000_0000_0000_0000 * 8 % 0x1_0000_0000_0000_0000 == 8 * n
  {}

  lemma ZerosLeft(n: nat, turns: nat, len: nat)
    requires n == 64 * turns + len && len < 64
    ensures ZeroCount(n) == if len + 1 <= 56 then 56 - (len + 1) else 120 - (len + 1)
  {}

  /** However a message is split over calls of `update`, the digest is that of the whole message. */
  method HashParts(parts: seq<seq<byte>>) returns (hash: seq<byte>)
    ensures |Flatten(parts)| < 0x2000_0000_0000_0000 ==> hash == Sha1Of(Flatten(parts))
  {
    hide *;
    assert Flatten(parts[..0]) == [] by { EmptyFlatten(parts); }
    var sha1 := new Sha1();
    for i := 0 to |parts|
      invariant sha1.Valid() && fresh(sha1) && fresh(sha1.buffer)
      invariant sha1.fed == Flatten(parts[..i])
    {
      sha1.Update(parts[i]);
      FlattenTake(parts, i);
    }
    assert parts[..|parts|] == parts;
    hash := sha1.Finalize();
  }

  lemma EmptyFlatten(parts: seq<seq<byte>>)
    ensures Flatten(parts[..0]) == []
  {}
}
