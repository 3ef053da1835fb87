/** The file that holds the legacy public key, in plain hexadecimal or encrypted
    (daemon/core/auth/auth_manager.cpp). The derived encryption key and the random nonces are inputs;
    file writes succeed. */
module PubkeyFile {
  import opened Bytes
  import opened Text
  import opened Crypto

  datatype Config = Config(encryption: bool, key: Digest)

  type Nonce = s: seq<byte> | |s| == 16 witness seq(16, i => 0)

  const PREFIX := "FUTONENC"

  // ---- The cipher -----------------------------------------------------------------------------

  /** Grow a key stream, 32 bytes at a time, until it covers `n` bytes. */
  function Extend(p: Primitives, stream: seq<byte>, n: nat): (r: seq<byte>)
    ensures |r| >= n && stream <= r
    decreases n - |stream|
  {
    if |stream| >= n then stream else Extend(p, stream + p.sha256(stream + [|stream| % 256]), n)
  }

  function KeyStream(p: Primitives, key: Digest, nonce: Nonce, n: nat): (r: seq<byte>)
    ensures |r| >= n
  {
    Extend(p, p.sha256(key + nonce), n)
  }

  function XorWith(data: seq<byte>, stream: seq<byte>): (r: seq<byte>)
    requires |stream| >= |data|
    ensures |r| == |data|
  {
    seq(|data|, i requires 0 <= i < |data| => Xor(data[i], stream[i]))
  }

  function Encrypt(p: Primitives, key: Digest, nonce: Nonce, data: seq<byte>): seq<byte> {
    nonce + XorWith(data, KeyStream(p, key, nonce, |data|))
  }

  function Decrypt(p: Primitives, key: Digest, data: seq<byte>): seq<byte> {
    if |data| < 17 then []
    else
      var nonce: Nonce, body := data[..16], data[16..];
      XorWith(body, KeyStream(p, key, nonce, |body|))
  }

  lemma XorWithInvolutive(data: seq<byte>, stream: seq<byte>)
    requires |stream| >= |data|
    ensures XorWith(XorWith(data, stream), stream) == data
  {
    hide Xor;
    forall i | 0 <= i < |data| ensures Xor(Xor(data[i], stream[i]), stream[i]) == data[i] {
      XorInvolutive(data[i], stream[i]);
    }
  }

  /** Decryption inverts encryption: both sides extend the key stream alike. */
  lemma EncryptDecrypt(p: Primitives, key: Digest, nonce: Nonce, data: seq<byte>)
    ensures Decrypt(p, key, Encrypt(p, key, nonce, data)) == data
  {
    var stream := KeyStream(p, key, nonce, |data|);
    XorWithInvolutive(data, stream);
    hide KeyStream, XorWith;
    var e := Encrypt(p, key, nonce, data);
    assert e[..16] == nonce && e[16..] == XorWith(data, stream);
  }

  lemma {:induction false} ExtendBlocks(p: Primitives, stream: seq<byte>, n: nat, at: nat)
    requires (at - |stream|) % 32 == 0 && |stream| <= at && at + 32 <= |Extend(p, stream, n)|
    ensures var r := Extend(p, stream, n); r[at..at + 32] == p.sha256(r[..at] + [at % 256])
    decreases n - |stream|
  {
    if |stream| < n {
      var next := stream + p.sha256(stream + [|stream| % 256]);
      var r := Extend(p, next, n);
      if |stream| == at {
        assert r[..at] == stream && r[at..at + 32] == next[at..];
      } else {
        ExtendBlocks(p, next, n, at);
      }
    }
  }

  lemma {:induction false} ExtendLength(p: Primitives, stream: seq<byte>, n: nat)
    requires |stream| % 32 == 0
    ensures |Extend(p, stream, n)| % 32 == 0 && (|Extend(p, stream, n)| == |stream| || |Extend(p, stream, n)| < n + 32)
    decreases n - |stream|
  {
    if |stream| < n { ExtendLength(p, stream + p.sha256(stream + [|stream| % 256]), n); }
  }

  /** The key stream: the hash of key and nonce, and then, block by block, the hash of all before it and its length; no
      longer than needed. The encrypted bytes differ from the plain ones by just this stream. */
  lemma CipherStream(p: Primitives, key: Digest, nonce: Nonce, data: seq<byte>, i: nat)
    requires i < |data|
    ensures var r, e := KeyStream(p, key, nonce, |data|), Encrypt(p, key, nonce, data);
            && |e| == 16 + |data| && e[..16] == nonce && Xor(e[16 + i], data[i]) == r[i]
            && |r| % 32 == 0 && |r| < |data| + 32 && r[..32] == p.sha256(key + nonce)
            && (32 * i + 64 <= |r| ==>
                  r[32 * i + 32..32 * i + 64] == p.sha256(r[..32 * i + 32] + [(32 * i + 32) % 256]))
  {
    hide Xor;
    var first := p.sha256(key + nonce);
    var r := KeyStream(p, key, nonce, |data|);
    ExtendLength(p, first, |data|);
    if 32 * i + 64 <= |r| { ExtendBlocks(p, first, |data|, 32 * i + 32); }
    hide KeyStream, Extend;
    var e := Encrypt(p, key, nonce, data);
    assert e[16 + i] == XorWith(data, r)[i];
    XorShows(data[i], r[i]);
  }

  // ---- The file -------------------------------------------------------------------------------

  /** The text `save_public_key` writes. */
  function Saved(p: Primitives, c: Config, key: seq<byte>, nonce: Nonce): string {
    if c.encryption then PREFIX + Hex(Encrypt(p, c.key, nonce, key)) else Hex(key)
  }

  datatype Loaded = Loaded(key: Option<seq<byte>>, file: string)

  /** `load_public_key`: the key, or none on failure, and the file afterwards. A plain file is rewritten
      in encrypted form when encryption is on. */
  function Load(p: Primitives, c: Config, file: string, nonce: Nonce): Loaded {
    var content := Trim(file);
    if content == "" then Loaded(None, file)
    else if c.encryption && |content| > 16 && content[..8] == PREFIX then
      var data := Unhex(content[8..]);
      if data.None? || |data.value| < 16 then Loaded(None, file)
      else
        var key := Decrypt(p, c.key, data.value);
        Loaded(if key == [] then None else Some(key), file)
    else
      var data := Unhex(content);
      if data.None? then Loaded(None, file)
      else Loaded(data, if c.encryption then Saved(p, c, data.value, nonce) else file)
  }

  lemma HexTrimmed(head: string, data: seq<byte>)
    requires IsTrimmed(head)
    ensures Trim(head + Hex(data)) == head + Hex(data)
  {
    HexIsHexText(data);
    hide Hex, Trim;
    var s := Hex(data);
    assert |s| > 0 ==> HexValue(s[0]).Some? && HexValue(s[|s| - 1]).Some?;
    TrimTrimmed(head + s);
  }

  /** A text starting like an encrypted file is never hexadecimal. */
  lemma PrefixIsNotHex(s: string)
    requires |s| >= 8 && Unhex(s).Some?
    ensures s[..8] != PREFIX
  {
    hide HexValue;
    assert s[..8] == PREFIX ==> s[1] == 'U' by { assert s[..8][1] == s[1]; }
    UnhexDigits(s, 1);
    assert HexValue('U').None? by { NotHex(); }
  }

  lemma NotHex()
    ensures HexValue('U').None?
  {}

  lemma {:induction false} UnhexDigits(s: string, i: nat)
    requires Unhex(s).Some? && i < |s|
    ensures HexValue(s[i]).Some?
  {
    hide HexValue;
    if i < |s| - 2 { UnhexDigits(s[..|s| - 2], i); }
  }

  /** Saving a key and loading it returns the key exactly when it is nonempty, and leaves an encrypted
      file as it is. */
  lemma SavedLoads(p: Primitives, c: Config, key: seq<byte>, nonce: Nonce, other: Nonce)
    ensures Load(p, c, Saved(p, c, key, nonce), other).key == (if key == [] then None else Some(key))
    ensures c.encryption ==> Load(p, c, Saved(p, c, key, nonce), other).file == Saved(p, c, key, nonce)
  {
    if c.encryption { EncryptedLoads(p, c, key, nonce, other); } else { PlainLoads(p, c, key, other); }
  }

  lemma EncryptedLoads(p: Primitives, c: Config, key: seq<byte>, nonce: Nonce, other: Nonce)
    requires c.encryption
    ensures Load(p, c, Saved(p, c, key, nonce), other)
         == Loaded(if key == [] then None else Some(key), Saved(p, c, key, nonce))
  {
    hide Hex, Unhex, Trim, Decrypt, XorWith, KeyStream;
    var data := Encrypt(p, c.key, nonce, key);
    var s := Saved(p, c, key, nonce);
    HexTrimmed(PREFIX, data);
    HexRoundTrip(data);
    assert s[..8] == PREFIX && s[8..] == Hex(data);
    EncryptDecrypt(p, c.key, nonce, key);
  }

  lemma PlainLoads(p: Primitives, c: Config, key: seq<byte>, other: Nonce)
    requires !c.encryption
    ensures Load(p, c, Hex(key), other).key == (if key == [] then None else Some(key))
  {
    HexTrimmed("", key);
    HexRoundTrip(key);
    hide Unhex, Trim, HexValue;
    assert "" + Hex(key) == Hex(key);
  }

  /** Whatever file a load succeeds on, a plain one or an encrypted one, loading again returns the same
      key and changes the file no further. */
  lemma LoadAgain(p: Primitives, c: Config, file: string, nonce: Nonce, other: Nonce)
    requires Load(p, c, file, nonce).key.Some?
    ensures var first := Load(p, c, file, nonce);
            Load(p, c, first.file, other) == first
  {
    hide Unhex, Trim, Decrypt, Saved, HexValue;
    var first := Load(p, c, file, nonce);
    if first.file != file {
      assert first.key.value != [] by { assert |Trim(file)| > 0; }
      SavedLoads(p, c, first.key.value, nonce, other);
    } else {
      var content := Trim(file);
      if c.encryption && !(|content| > 16 && content[..8] == PREFIX) {
        assert first.file == Saved(p, c, first.key.value, nonce);
        SavedLoads(p, c, first.key.value, nonce, other);
      }
    }
  }

  /** A plain hexadecimal file, however it is padded with blanks, loads as its key with encryption on or
      off, and is encrypted afterwards when encryption is on. */
  lemma LegacyMigrates(p: Primitives, c: Config, file: string, nonce: Nonce)
    requires Trim(file) != "" && Unhex(Trim(file)).Some?
    ensures Load(p, c, file, nonce).key == Unhex(Trim(file))
    ensures c.encryption ==> PREFIX <= Load(p, c, file, nonce).file
  {
    if |Trim(file)| >= 8 { PrefixIsNotHex(Trim(file)); }
    hide Unhex, Trim, Hex;
  }

  // ---- The code -------------------------------------------------------------------------------

  method DeriveStream(p: Primitives, key: Digest, nonce: Nonce, n: nat) returns (stream: seq<byte>)
    ensures stream == KeyStream(p, key, nonce, n)
  {
    stream := p.sha256(key + nonce);
    while |stream| < n
      invariant Extend(p, stream, n) == KeyStream(p, key, nonce, n)
    {
      var extended := p.sha256(stream + [|stream| % 256]);
      stream := stream + extended;
    }
  }

  method ApplyStream(data: seq<byte>, stream: seq<byte>) returns (r: seq<byte>)
    requires |stream| >= |data|
    ensures r == XorWith(data, stream)
  {
    hide Xor;
    r := [];
    for i := 0 to |data|
      invariant r == XorWith(data, stream)[..i]
    {
      r := r + [Xor(data[i], stream[i])];
    }
  }

  class PubkeyStore {
    const primitives: Primitives
    const config: Config
    var file: string
    var publicKey: seq<byte>

    constructor (primitives: Primitives, config: Config, file: string)
      ensures this.primitives == primitives && this.config == config
      ensures this.file == file && publicKey == []
    {
      this.primitives, this.config, this.file, publicKey := primitives, config, file, [];
    }

    method SavePublicKey(key: seq<byte>, nonce: Nonce)
      modifies this`file
      ensures file == Saved(primitives, config, key, nonce)
    {
      if !config.encryption {
        file := ToHex(key);
        return;
      }
      var stream := DeriveStream(primitives, config.key, nonce, |key|);
      var body := ApplyStream(key, stream);
      var text := ToHex(nonce + body);
      file := PREFIX + text;
    }

    method LoadPublicKey(nonce: Nonce) returns (ok: bool)
      modifies this
      ensures var r := Load(primitives, config, old(file), nonce);
              && file == r.file
              && ok == r.key.Some?
              && publicKey == (if ok then r.key.value else old(publicKey))
    {
      hide Trim, Unhex, Hex, XorWith, KeyStream;
      var content := Trim(file);
      if content == "" { return false; }
      if config.encryption && |content| > 16 && content[..8] == PREFIX {
        var data := FromHex(content[8..]);
        if data.None? || |data.value| < 16 { return false; }
        if |data.value| < 17 { return false; }
        var stream := DeriveStream(primitives, config.key, data.value[..16], |data.value| - 16);
        var key := ApplyStream(data.value[16..], stream);
        publicKey := key;
        return true;
      }
      var data := FromHex(content);
      if data.None? { return false; }
      if config.encryption { SavePublicKey(data.value, nonce); }
      publicKey := data.value;
      ok := true;
    }
  }
}
