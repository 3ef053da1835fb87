/** 32-bit words and the bitwise operators of the SHA-1 rounds. */
module Words {
  import opened Bytes

  type word = x: int | 0 <= x < 0x1_0000_0000

  function AndBits(a: nat, b: nat, n: nat): nat {
    if n == 0 then 0 else (if a % 2 == 1 && b % 2 == 1 then 1 else 0) + 2 * AndBits(a / 2, b / 2, n - 1)
  }

  function OrBits(a: nat, b: nat, n: nat): nat {
    if n == 0 then 0 else (if a % 2 == 1 || b % 2 == 1 then 1 else 0) + 2 * OrBits(a / 2, b / 2, n - 1)
  }

  function NotBits(a: nat, n: nat): nat {
    if n == 0 then 0 else (if a % 2 == 1 then 0 else 1) + 2 * NotBits(a / 2, n - 1)
  }

  lemma {:induction false} BitsBound(a: nat, b: nat, n: nat)
    ensures AndBits(a, b, n) < Pow2(n) && OrBits(a, b, n) < Pow2(n) && NotBits(a, n) < Pow2(n)
  {
    if n > 0 { BitsBound(a / 2, b / 2, n - 1); }
  }

  lemma Pow2Of32()
    ensures Pow2(32) == 0x1_0000_0000
  {
    hide Pow2;
    assert Pow2(16) == 0x1_0000 by { Pow2Of8(); Pow2Add(8, 8); }
    Pow2Add(16, 16);
  }

  lemma {:induction false} Pow2Add(a: nat, b: nat)
    ensures Pow2(a + b) == Pow2(a) * Pow2(b)
  {
    if a > 0 { Pow2Add(a - 1, b); }
  }

  function And(a: word, b: word): word { BitsBound(a, b, 32); Pow2Of32(); AndBits(a, b, 32) }

  function Or(a: word, b: word): word { BitsBound(a, b, 32); Pow2Of32(); OrBits(a, b, 32) }

  function Not(a: word): word { BitsBound(a, 0, 32); Pow2Of32(); NotBits(a, 32) }

  function Xor32(a: word, b: word): word { XorBitsBound(a, b, 32); Pow2Of32(); XorBits(a, b, 32) }

  function Add(a: word, b: word): word { (a + b) % 0x1_0000_0000 }

  // (x << n) | (x >> (32 - n)); the two parts share no bit
  function Rotl1(x: word): word { x * 2 % 0x1_0000_0000 + x / 0x8000_0000 }

  function Rotl5(x: word): word { x * 32 % 0x1_0000_0000 + x / 0x800_0000 }

  function Rotl30(x: word): word { x * 0x4000_0000 % 0x1_0000_0000 + x / 4 }

  /** Ch with "or", as the source writes it, and with exclusive-or, as the standard does. */
  lemma {:induction false} ChForms(x: nat, y: nat, z: nat, n: nat)
    ensures var p, q := AndBits(x, y, n), AndBits(NotBits(x, n), z, n);
            OrBits(p, q, n) == XorBits(p, q, n)
  {
    if n > 0 { ChForms(x / 2, y / 2, z / 2, n - 1); }
  }

  /** Maj in both forms. */
  lemma {:induction false} MajForms(x: nat, y: nat, z: nat, n: nat)
    ensures var p, q, r := AndBits(x, y, n), AndBits(x, z, n), AndBits(y, z, n);
            OrBits(OrBits(p, q, n), r, n) == XorBits(XorBits(p, q, n), r, n)
  {
    if n > 0 {
      MajForms(x / 2, y / 2, z / 2, n - 1);
      var p, q, r := AndBits(x, y, n), AndBits(x, z, n), AndBits(y, z, n);
      assert p / 2 == AndBits(x / 2, y / 2, n - 1) && q / 2 == AndBits(x / 2, z / 2, n - 1);
      assert r / 2 == AndBits(y / 2, z / 2, n - 1);
      assert OrBits(p, q, n) / 2 == OrBits(p / 2, q / 2, n - 1) && XorBits(p, q, n) / 2 == XorBits(p / 2, q / 2, n - 1);
    }
  }
}
