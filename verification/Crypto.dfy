/** The OpenSSL calls of daemon/core/auth/crypto_utils.cpp, as unknown functions: a hash of 32 bytes
    and two signature predicates over (public key, message, signature); and its comparison of secrets. */
module Crypto {
  import opened Bytes
  import opened Words

  type Digest = s: seq<byte> | |s| == 32 witness seq(32, i => 0)

  datatype Primitives = Primitives(
    sha256: seq<byte> -> Digest,
    ecdsa: (seq<byte>, seq<byte>, seq<byte>) -> bool,
    ed25519: (seq<byte>, seq<byte>, seq<byte>) -> bool)

  /** `CryptoUtils::verify_signature`: the algorithm follows from the key size. */
  predicate VerifyAny(p: Primitives, key: seq<byte>, data: seq<byte>, sig: seq<byte>) {
    if |key| == 32 then p.ed25519(key, data, sig) else p.ecdsa(key, data, sig)
  }

  lemma {:induction false} OrIsZero(a: nat, b: nat, n: nat)
    requires a < Pow2(n) && b < Pow2(n)
    ensures OrBits(a, b, n) == 0 <==> a == 0 && b == 0
  {
    if n > 0 { OrIsZero(a / 2, b / 2, n - 1); }
  }

  lemma {:induction false} XorIsZero(a: nat, b: nat, n: nat)
    requires a < Pow2(n) && b < Pow2(n)
    ensures XorBits(a, b, n) == 0 <==> a == b
  {
    if n > 0 { XorIsZero(a / 2, b / 2, n - 1); }
  }

  lemma DifferenceBits(result: nat, a: byte, b: byte)
    requires result < 256
    ensures OrBits(result, Xor(a, b), 8) < 256
    ensures OrBits(result, Xor(a, b), 8) == 0 <==> result == 0 && a == b
  {
    hide Pow2, OrBits, XorBits;
    Pow2Of8();
    BitsBound(result, Xor(a, b), 8);
    OrIsZero(result, Xor(a, b), 8);
    XorIsZero(a, b, 8);
  }

  /** `constant_time_compare`: equality, from the differences of all the bytes. */
  method ConstantTimeCompare(a: seq<byte>, b: seq<byte>) returns (same: bool)
    ensures same <==> a == b
  {
    hide OrBits, Xor;
    if |a| != |b| { return false; }
    var result: nat := 0;
    for i := 0 to |a|
      invariant result < 256 && (result == 0 <==> a[..i] == b[..i])
    {
      DifferenceBits(result, a[i], b[i]);
      assert a[..i + 1] == a[..i] + [a[i]] && b[..i + 1] == b[..i] + [b[i]];
      result := OrBits(result, Xor(a[i], b[i]), 8);
    }
    assert a[..|a|] == a && b[..|a|] == b;
    same := result == 0;
  }
}
