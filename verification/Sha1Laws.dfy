/** SHA-1 in other words (daemon/debug/ws_frame.cpp): its operators bit by bit, its schedule in a ring of sixteen words
    as in section 6.2 of RFC 3174, its rounds as one sequence of words, and where its constants come from. */
module Sha1Laws {
  import opened Bytes
  import opened Words
  import opened Sha1Compression
  import opened Sha1

  /** Bit `i` of a number, the lowest being bit 0. */
  function Bit(x: nat, i: nat): (b: nat)
    ensures b <= 1
    decreases i
  {
    if i == 0 then x % 2 else Bit(x / 2, i - 1)
  }

  // ---- And, or, not, exclusive-or -------------------------------------------------------------

  lemma Half(low: nat, high: nat)
    requires low <= 1
    ensures (low + 2 * high) / 2 == high && (low + 2 * high) % 2 == low
  {}

  lemma {:induction false} XorBitsBit(a: nat, b: nat, n: nat, i: nat)
    requires i < n
    ensures Bit(XorBits(a, b, n), i) == if Bit(a, i) == Bit(b, i) then 0 else 1
    decreases n
  {
    Half(if a % 2 == b % 2 then 0 else 1, XorBits(a / 2, b / 2, n - 1));
    if i > 0 { XorBitsBit(a / 2, b / 2, n - 1, i - 1); }
  }

  lemma {:induction false} AndBitsBit(a: nat, b: nat, n: nat, i: nat)
    requires i < n
    ensures Bit(AndBits(a, b, n), i) == if Bit(a, i) == 1 && Bit(b, i) == 1 then 1 else 0
    decreases n
  {
    Half(if a % 2 == 1 && b % 2 == 1 then 1 else 0, AndBits(a / 2, b / 2, n - 1));
    if i > 0 { AndBitsBit(a / 2, b / 2, n - 1, i - 1); }
  }

  lemma {:induction false} NotBitsBit(a: nat, n: nat, i: nat)
    requires i < n
    ensures Bit(NotBits(a, n), i) == 1 - Bit(a, i)
    decreases n
  {
    Half(if a % 2 == 1 then 0 else 1, NotBits(a / 2, n - 1));
    if i > 0 { NotBitsBit(a / 2, n - 1, i - 1); }
  }

  /** Exclusive-or of bytes, the masking of frames and of stored secrets, sets the bits in which they differ. */
  lemma XorBit(a: byte, b: byte, i: nat)
    requires i < 8
    ensures Bit(Xor(a, b), i) == if Bit(a, i) == Bit(b, i) then 0 else 1
  {
    hide Bit, XorBits;
    XorBitsBit(a, b, 8, i);
  }

  /** The three round functions: Ch takes each bit from `y` or `z` as `x` says, Maj takes the majority, and Parity the
      sum without carry. */
  lemma RoundFunctionBits(x: word, y: word, z: word, i: nat)
    requires i < 32
    ensures Bit(Ch(x, y, z), i) == if Bit(x, i) == 1 then Bit(y, i) else Bit(z, i)
    ensures Bit(Maj(x, y, z), i) == if Bit(x, i) + Bit(y, i) + Bit(z, i) >= 2 then 1 else 0
    ensures Bit(Parity(x, y, z), i) == (Bit(x, i) + Bit(y, i) + Bit(z, i)) % 2
  {
    hide Bit, XorBits, AndBits, NotBits;
    NotBitsBit(x, 32, i);
    AndBitsBit(x, y, 32, i);
    AndBitsBit(x, z, 32, i);
    AndBitsBit(y, z, 32, i);
    AndBitsBit(Not(x), z, 32, i);
    XorBitsBit(And(x, y), And(Not(x), z), 32, i);
    XorBitsBit(And(x, y), And(x, z), 32, i);
    XorBitsBit(Xor32(And(x, y), And(x, z)), And(y, z), 32, i);
    XorBitsBit(x, y, 32, i);
    XorBitsBit(Xor32(x, y), z, 32, i);
  }

  // ---- Rotations ------------------------------------------------------------------------------

  /** `low`, of `k` bits, below `high`. */
  function Join(high: nat, low: nat, k: nat): nat { high * Pow2(k) + low }

  lemma {:induction false} JoinBits(high: nat, low: nat, k: nat, i: nat)
    requires low < Pow2(k)
    ensures Bit(Join(high, low, k), i) == if i < k then Bit(low, i) else Bit(high, i - k)
    decreases k
  {
    if k > 0 {
      Halves(high, low, Pow2(k - 1));
      if i > 0 { JoinBits(high, low / 2, k - 1, i - 1); }
    }
  }

  lemma Halves(high: nat, low: nat, p: nat)
    ensures (high * (2 * p) + low) / 2 == high * p + low / 2 && (high * (2 * p) + low) % 2 == low % 2
  {
    assert high * (2 * p) == 2 * (high * p);
  }

  /** The high and the low part of a word change places. */
  lemma RotatedBits(high: nat, low: nat, k: nat, i: nat)
    requires k <= 32 && i < 32 && high < Pow2(k) && low < Pow2(32 - k)
    ensures Bit(Join(low, high, k), (i + k) % 32) == Bit(Join(high, low, 32 - k), i)
  {
    hide Bit, Pow2, Join;
    JoinBits(low, high, k, (i + k) % 32);
    JoinBits(high, low, 32 - k, i);
  }

  /** The rotations move bit `i` up by 1, 5 and 30 places, round the end of the word. */
  lemma RotationBits(x: word, i: nat)
    requires i < 32
    ensures Bit(Rotl1(x), (i + 1) % 32) == Bit(x, i)
    ensures Bit(Rotl5(x), (i + 5) % 32) == Bit(x, i)
    ensures Bit(Rotl30(x), (i + 30) % 32) == Bit(x, i)
  {
    hide Bit, Pow2, Rotl1, Rotl5, Rotl30, Join;
    Rotl1Joins(x);
    Rotl5Joins(x);
    Rotl30Joins(x);
    RotatedBits(x / 0x8000_0000, x % 0x8000_0000, 1, i);
    RotatedBits(x / 0x800_0000, x % 0x800_0000, 5, i);
    RotatedBits(x / 4, x % 4, 30, i);
  }

  lemma Rotl1Joins(x: word)
    ensures var h, l := x / 0x8000_0000, x % 0x8000_0000;
            && h < Pow2(1) && l < Pow2(31) && Join(h, l, 31) == x && Join(l, h, 1) == Rotl1(x)
  {
    hide Pow2;
    Powers();
    var h, l := x / 0x8000_0000, x % 0x8000_0000;
    assert x * 2 == h * 0x1_0000_0000 + l * 2;
    Drop(h, l * 2);
  }

  lemma Rotl5Joins(x: word)
    ensures var h, l := x / 0x800_0000, x % 0x800_0000;
            && h < Pow2(5) && l < Pow2(27) && Join(h, l, 27) == x && Join(l, h, 5) == Rotl5(x)
  {
    hide Pow2;
    Powers();
    var h, l := x / 0x800_0000, x % 0x800_0000;
    assert x * 32 == h * 0x1_0000_0000 + l * 32;
    Drop(h, l * 32);
  }

  lemma Rotl30Joins(x: word)
    ensures var h, l := x / 4, x % 4;
            && h < Pow2(30) && l < Pow2(2) && Join(h, l, 2) == x && Join(l, h, 30) == Rotl30(x)
  {
    hide Pow2;
    Powers();
    var h, l := x / 4, x % 4;
    assert x * 0x4000_0000 == h * 0x1_0000_0000 + l * 0x4000_0000;
    Drop(h, l * 0x4000_0000);
  }

  lemma Drop(h: nat, r: nat)
    requires r < 0x1_0000_0000
    ensures (h * 0x1_0000_0000 + r) % 0x1_0000_0000 == r
  {}

  lemma Powers()
    ensures Pow2(1) == 2 && Pow2(31) == 0x8000_0000 && Pow2(5) == 32 && Pow2(27) == 0x800_0000
    ensures Pow2(30) == 0x4000_0000 && Pow2(2) == 4
  {
    hide Pow2;
    assert Pow2(1) == 2 && Pow2(2) == 4 by { SmallPowers(); }
    assert Pow2(5) == 32 by { SmallPowers(); }
    Pow2Of32();
    Pow2Add(31, 1);
    Pow2Add(27, 5);
    Pow2Add(30, 2);
  }

  lemma SmallPowers()
    ensures Pow2(1) == 2 && Pow2(2) == 4 && Pow2(5) == 32
  {
    assert Pow2(5) == 2 * Pow2(4) && Pow2(4) == 2 * Pow2(3);
  }

  // ---- The schedule ---------------------------------------------------------------------------

  lemma {:induction false} ExtendKeeps(w: seq<word>, t: nat)
    requires 16 <= |w| <= 80 && t < 80
    ensures w <= Extend(w)
    ensures var r := Extend(w);
            t >= |w| ==> r[t] == Rotl1(Xor32(Xor32(Xor32(r[t - 3], r[t - 8]), r[t - 14]), r[t - 16]))
    decreases 80 - |w|
  {
    hide Rotl1, Xor32;
    if |w| < 80 {
      var n := |w|;
      var more := w + [Rotl1(Xor32(Xor32(Xor32(w[n - 3], w[n - 8]), w[n - 14]), w[n - 16]))];
      ExtendKeeps(more, t);
      assert Extend(w) == Extend(more);
      assert forall i :: 0 <= i <= n ==> Extend(w)[i] == more[i];
    }
  }

  /** The first sixteen words are those of the block, most significant byte first. */
  lemma FirstWordsMean(block: Block, t: nat)
    requires t < 16
    ensures FirstWords(block)[t] == FromBigEndian(block[4 * t..4 * t + 4])
  {
    var d := block[4 * t..4 * t + 4];
    FourBack(d);
    assert d[0] == block[4 * t] && d[1] == block[4 * t + 1] && d[2] == block[4 * t + 2] && d[3] == block[4 * t + 3];
  }

  lemma FourBack(d: seq<byte>)
    requires |d| == 4
    ensures FromBigEndian(d) == FourBytes(d[0], d[1], d[2], d[3])
  {
    assert d[..3][..2] == d[..2] && d[..2][..1] == d[..1] && d[..1][..0] == [];
    assert FromBigEndian(d[..1]) == d[0];
    assert FromBigEndian(d[..2]) == FromBigEndian(d[..1]) * 256 + d[1];
    assert FromBigEndian(d[..3]) == FromBigEndian(d[..2]) * 256 + d[2];
  }

  /** The words of the schedule before `t`, in a ring of sixteen places. */
  ghost predicate InRing(ring: seq<word>, w: seq<word>, t: nat)
    requires 16 <= t <= |w|
  {
    |ring| == 16 && forall i :: t - 16 <= i < t ==> ring[i % 16] == w[i]
  }

  /** A new word, from the places of the ring that section 6.2 of RFC 3174 names, takes the place of the oldest one. */
  lemma ScheduleRing(first: seq<word>, ring: seq<word>, t: nat)
    requires |first| == 16 && 16 <= t < 80 && InRing(ring, Extend(first), t)
    ensures var s := t % 16;
            var mixed := Xor32(Xor32(Xor32(ring[(s + 13) % 16], ring[(s + 8) % 16]), ring[(s + 2) % 16]), ring[s]);
            var next := Rotl1(mixed);
            Extend(first)[t] == next && InRing(ring[s := next], Extend(first), t + 1)
  {
    hide Rotl1, Xor32, Extend;
    ExtendKeeps(first, t);
    var w, s := Extend(first), t % 16;
    Places(t);
    assert ring[(t - 3) % 16] == w[t - 3] && ring[(t - 8) % 16] == w[t - 8];
    assert ring[(t - 14) % 16] == w[t - 14] && ring[(t - 16) % 16] == w[t - 16];
    forall i | t - 15 <= i < t ensures i % 16 != s { Apart(i, t); }
  }

  lemma Places(t: nat)
    requires t >= 16
    ensures (t - 3) % 16 == (t % 16 + 13) % 16 && (t - 8) % 16 == (t % 16 + 8) % 16
    ensures (t - 14) % 16 == (t % 16 + 2) % 16 && (t - 16) % 16 == t % 16
  {
    var q, s := t / 16 - 1, t % 16;
    Turn(q, s + 13);
    Turn(q, s + 8);
    Turn(q, s + 2);
    Turn(q, s);
  }

  lemma Turn(q: nat, r: nat)
    ensures (16 * q + r) % 16 == r % 16
  {}

  lemma Apart(i: nat, t: nat)
    requires i < t < i + 16
    ensures i % 16 != t % 16
  {}

  // ---- The rounds -----------------------------------------------------------------------------

  function After(h: Hash, t: nat, w: seq<word>): Hash
    requires t <= |w|
  {
    if t == 0 then h else Round(After(h, t - 1, w), t - 1, w[t - 1])
  }

  lemma {:induction false} RoundsAfter(h: Hash, t: nat, w: seq<word>)
    requires t <= |w|
    ensures Rounds(After(h, t, w), t, w) == Rounds(h, 0, w)
  {
    hide Round;
    if t > 0 { RoundsAfter(h, t - 1, w); }
  }

  /** The rounds make one sequence of words, of which a state holds the last five, the last three of them rotated: each
      new word is the sum of the last one rotated, a mix of the three before it, the fifth, a constant and the word of
      the schedule. */
  lemma RoundSequence(h: Hash, t: nat, w: seq<word>)
    requires 4 <= t < |w|
    ensures var a, b, c, d, e := After(h, t, w).a, After(h, t - 1, w).a, After(h, t - 2, w).a, After(h, t - 3, w).a,
              After(h, t - 4, w).a;
            && After(h, t, w) == Hash(a, b, Rotl30(c), Rotl30(d), Rotl30(e))
            && After(h, t + 1, w).a
               == (Rotl5(a) + F(t, b, Rotl30(c), Rotl30(d)) + Rotl30(e) + K(t) + w[t]) % 0x1_0000_0000
    ensures Rounds(h, 0, w) == After(h, |w|, w)
  {
    hide Rotl5, Rotl30, F, K;
    RoundsAfter(h, |w|, w);
    assert After(h, t, w) == Round(After(h, t - 1, w), t - 1, w[t - 1]);
    assert After(h, t - 1, w) == Round(After(h, t - 2, w), t - 2, w[t - 2]);
    assert After(h, t - 2, w) == Round(After(h, t - 3, w), t - 3, w[t - 3]);
    assert After(h, t - 3, w) == Round(After(h, t - 4, w), t - 4, w[t - 4]);
    var x := After(h, t, w);
    hide After;
    SumOfFive(Rotl5(x.a), F(t, x.b, x.c, x.d), x.e, K(t), w[t]);
  }

  lemma SumOfFive(a: word, b: word, c: word, d: word, e: word)
    ensures Add(Add(Add(Add(a, b), c), d), e) == (a + b + c + d + e) % 0x1_0000_0000
  {
    var m := 0x1_0000_0000;
    Dropped(a + b, c);
    Dropped(a + b + c, d);
    Dropped(a + b + c + d, e);
  }

  lemma Dropped(x: nat, y: nat)
    ensures (x % 0x1_0000_0000 + y) % 0x1_0000_0000 == (x + y) % 0x1_0000_0000
  {}

  /** A block adds what its rounds make of the hash to the hash, word by word. */
  lemma BlockAdds(h: Hash, block: Block)
    ensures var w := Extend(FirstWords(block));
            var r, x := Compress(h, block), After(h, 80, w);
            && r.a == (h.a + x.a) % 0x1_0000_0000 && r.b == (h.b + x.b) % 0x1_0000_0000
            && r.c == (h.c + x.c) % 0x1_0000_0000 && r.d == (h.d + x.d) % 0x1_0000_0000
            && r.e == (h.e + x.e) % 0x1_0000_0000
  {
    hide Round, Extend, FirstWords;
    var w := Extend(FirstWords(block));
    RoundsAfter(h, 80, w);
    hide After;
  }

  // ---- The ends -------------------------------------------------------------------------------

  /** A padded message: the message, one bit, zeros, and the length of the message in bits. */
  lemma PaddingMeans(m: seq<byte>, i: nat)
    requires |m| < 0x2000_0000_0000_0000
    ensures var p := Pad(m);
            && |p| >= |m| + 9 && p[..|m|] == m && p[|m|] == 0x80 && FromBigEndian(p[|p| - 8..]) == 8 * |m|
            && (|m| < i < |p| - 8 ==> p[i] == 0)
  {
    hide BigEndian, FromBigEndian, ZeroCount;
    var n := ZeroCount(|m|);
    ZerosAre(n, if |m| < i < |m| + 1 + n then i - |m| - 1 else n);
    Pow256Of8();
    BigEndianRoundTrip(8 * |m|, 8);
    hide Zeros;
    var p := Pad(m);
    assert p[|p| - 8..] == BigEndian(8 * |m|, 8);
  }

  lemma {:induction false} ZerosAre(n: nat, i: nat)
    ensures i < n ==> Zeros(n)[i] == 0
  {
    if n > 0 { ZerosAre(n - 1, i); }
  }

  /** The digest holds the words of the hash in order, each most significant byte first. */
  lemma DigestMeans(h: Hash)
    ensures var d := Digest(h);
            && FromBigEndian(d[0..4]) == h.a && FromBigEndian(d[4..8]) == h.b && FromBigEndian(d[8..12]) == h.c
            && FromBigEndian(d[12..16]) == h.d && FromBigEndian(d[16..20]) == h.e
  {
    hide FromBigEndian, BigEndian;
    var ws := [h.a, h.b, h.c, h.d, h.e];
    Pow256Of4();
    forall i | 0 <= i < 5 ensures FromBigEndian(WordsBytes(ws)[4 * i..4 * i + 4]) == ws[i] {
      WordAt(ws, i);
      BigEndianRoundTrip(ws[i], 4);
    }
    assert ws[0] == h.a && ws[1] == h.b && ws[2] == h.c && ws[3] == h.d && ws[4] == h.e;
  }

  lemma Pow256Of4()
    ensures Pow256(4) == 0x1_0000_0000
  {
    assert Pow256(4) == 256 * Pow256(3) && Pow256(3) == 256 * Pow256(2);
  }

  lemma {:induction false} WordAt(ws: seq<word>, i: nat)
    requires i < |ws|
    ensures WordsBytes(ws)[4 * i..4 * i + 4] == BigEndian(ws[i], 4)
  {
    hide BigEndian;
    var n := |ws| - 1;
    var front := WordsBytes(ws[..n]);
    if i < n {
      WordAt(ws[..n], i);
      assert WordsBytes(ws)[4 * i..4 * i + 4] == front[4 * i..4 * i + 4];
    }
  }

  // ---- Constants ------------------------------------------------------------------------------

  /** The round constants are the whole parts of 2^30 times the square roots of 2, 3, 5 and 10. */
  lemma RoundConstants(t: nat)
    requires t < 80
    ensures var n := if t < 20 then 2 else if t < 40 then 3 else if t < 60 then 5 else 10;
            K(t) * K(t) <= n * 0x1000_0000_0000_0000 < (K(t) + 1) * (K(t) + 1)
  {}
}
