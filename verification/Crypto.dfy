/**
 `internal/crypto`: hybrid encryption. The frame `uint16(len(encKey)) || encKey || nonce || ciphertext` is concrete;
 RSA-OAEP and AES-GCM are functions of which only their inverses matter.
 */
module Crypto {
  import opened Wrappers
  import opened Bytes

  // The frame.

  /** `uint16(n)` in big-endian order: Go truncates to 16 bits. */
  function PutUint16(n: nat): Bytes {
    [n % 65536 / 256, n % 65536 % 256]
  }

  function Uint16(b: Bytes): nat
    requires |b| >= 2
  {
    var high: int, low: int := b[0], b[1];
    high * 256 + low
  }

  function Frame(encKey: Bytes, sealed: Bytes): Bytes {
    PutUint16(|encKey|) + encKey + sealed
  }

  /** How `Decrypt` takes a frame apart; `None` is `errMalformed`. */
  function Split(data: Bytes): Option<(Bytes, Bytes)> {
    if |data| < 2 then None
    else if |data| < 2 + Uint16(data) then None
    else Some((data[2..2 + Uint16(data)], data[2 + Uint16(data)..]))
  }

  lemma PutGet(n: nat, rest: Bytes)
    ensures Uint16(PutUint16(n) + rest) == n % 65536
  {
  }

  /** `Split` finds exactly the pairs that were framed with a key block of fewer than 65536 bytes. */
  lemma SplitIffFramed(data: Bytes, encKey: Bytes, sealed: Bytes)
    ensures Split(data) == Some((encKey, sealed)) <==> |encKey| < 65536 && data == Frame(encKey, sealed)
  {
    if |encKey| < 65536 && data == Frame(encKey, sealed) {
      PutGet(|encKey|, encKey + sealed);
      assert PutUint16(|encKey|) + (encKey + sealed) == data;
      assert data[2..2 + |encKey|] == encKey && data[2 + |encKey|..] == sealed;
    }
    if Split(data) == Some((encKey, sealed)) {
      var n := Uint16(data);
      assert n < 65536 && |encKey| == n;
      assert PutUint16(n) == data[..2];
      assert data == data[..2] + data[2..2 + n] + data[2 + n..];
    }
  }

  /** A frame splits back into its parts if and only if its key block fits the 16-bit length. */
  lemma FrameRoundTripIff(encKey: Bytes, sealed: Bytes)
    ensures Split(Frame(encKey, sealed)) == Some((encKey, sealed)) <==> |encKey| < 65536
  {
  }

  /** The length of the key block comes first, high byte first; then the key block, then the rest. */
  lemma FrameLayout(k: Bytes, s: Bytes)
    requires |k| < 65536
    ensures var f := Frame(k, s);
      && |f| == 2 + |k| + |s| && f[0] as int * 256 + f[1] as int == |k|
      && (forall i :: 0 <= i < |k| ==> f[2 + i] == k[i])
      && (forall i :: 0 <= i < |s| ==> f[2 + |k| + i] == s[i])
  {
    PutGet(|k|, k + s);
    assert PutUint16(|k|) + (k + s) == Frame(k, s);
  }

  lemma FrameInjective(k: Bytes, s: Bytes, k': Bytes, s': Bytes)
    requires |k| < 65536 && |k'| < 65536 && Frame(k, s) == Frame(k', s')
    ensures k == k' && s == s'
  {
    SplitIffFramed(Frame(k, s), k, s);
    SplitIffFramed(Frame(k, s), k', s');
  }

  /** The end of `Encrypt`: the output buffer filled in place. */
  method BuildFrame(encKey: Bytes, sealed: Bytes) returns (out: array<byte>)
    ensures fresh(out) && out[..] == Frame(encKey, sealed)
  {
    out := new byte[2 + |encKey| + |sealed|](_ => 0);
    var n := |encKey| % 65536;
    out[0] := n / 256;
    out[1] := n % 256;
    for i := 0 to |encKey|
      invariant out[0] == n / 256 && out[1] == n % 256
      invariant forall j :: 0 <= j < i ==> out[2 + j] == encKey[j]
    {
      out[2 + i] := encKey[i];
    }
    for i := 0 to |sealed|
      invariant out[0] == n / 256 && out[1] == n % 256
      invariant forall j :: 0 <= j < |encKey| ==> out[2 + j] == encKey[j]
      invariant forall j :: 0 <= j < i ==> out[2 + |encKey| + j] == sealed[j]
    {
      out[2 + |encKey| + i] := sealed[i];
    }
    assert out[..] == Frame(encKey, sealed);
  }

  // The ciphers.

  type PublicKey = int
  type PrivateKey = int

  /** RSA-OAEP with its randomness, and AES-GCM. */
  datatype Ciphers = Ciphers(
    rsaEncrypt: (PublicKey, Bytes, int) -> Option<Bytes>,
    rsaDecrypt: (PrivateKey, Bytes) -> Option<Bytes>,
    seal: (Bytes, Bytes, Bytes) -> Bytes,             // key, nonce, plaintext
    open: (Bytes, Bytes, Bytes) -> Option<Bytes>,     // key, nonce, ciphertext
    nonceSize: nat)

  const AES_KEY_SIZE := 32

  /** `aes.NewCipher` accepts three key sizes. */
  predicate AesKeyOk(k: Bytes) {
    |k| == 16 || |k| == 24 || |k| == 32
  }

  ghost predicate Lawful(c: Ciphers) {
    forall k, n, p :: AesKeyOk(k) && |n| == c.nonceSize ==> c.open(k, n, c.seal(k, n, p)) == Some(p)
  }

  /** A key pair whose key blocks fit the frame: RSA moduli of fewer than 524288 bits. */
  ghost predicate KeyPair(c: Ciphers, pub: PublicKey, priv: PrivateKey) {
    forall k, r :: c.rsaEncrypt(pub, k, r).Some? ==>
      |c.rsaEncrypt(pub, k, r).value| < 65536 && c.rsaDecrypt(priv, c.rsaEncrypt(pub, k, r).value) == Some(k)
  }

  /** `Encrypt` with its random session key, nonce and padding. */
  function Encrypt(c: Ciphers, pub: PublicKey, plaintext: Bytes, aesKey: Bytes, nonce: Bytes,
      padding: int): Option<Bytes> {
    if !AesKeyOk(aesKey) then None
    else
      var sealed := nonce + c.seal(aesKey, nonce, plaintext);
      var encKey := c.rsaEncrypt(pub, aesKey, padding);
      if encKey.None? then None else Some(Frame(encKey.value, sealed))
  }

  /** `Decrypt`; every error is a rejection to its caller. */
  function Decrypt(c: Ciphers, priv: PrivateKey, data: Bytes): Option<Bytes> {
    var parts := Split(data);
    if parts.None? then None
    else
      var (encKey, sealed) := parts.value;
      var aesKey := c.rsaDecrypt(priv, encKey);
      if aesKey.None? || !AesKeyOk(aesKey.value) || |sealed| < c.nonceSize then None
      else c.open(aesKey.value, sealed[..c.nonceSize], sealed[c.nonceSize..])
  }

  lemma DecryptEncrypt(c: Ciphers, pub: PublicKey, priv: PrivateKey, plaintext: Bytes, aesKey: Bytes, nonce: Bytes,
      padding: int)
    requires Lawful(c) && KeyPair(c, pub, priv)
    requires |aesKey| == AES_KEY_SIZE && |nonce| == c.nonceSize
    requires Encrypt(c, pub, plaintext, aesKey, nonce, padding).Some?
    ensures Decrypt(c, priv, Encrypt(c, pub, plaintext, aesKey, nonce, padding).value) == Some(plaintext)
  {
  }

  /** The private key opens the key block to an AES key, and that key opens the box. */
  predicate Opens(c: Ciphers, priv: PrivateKey, encKey: Bytes, aesKey: Bytes, nonce: Bytes, box: Bytes,
      plaintext: Bytes)
  {
    && c.rsaDecrypt(priv, encKey) == Some(aesKey) && AesKeyOk(aesKey)
    && |nonce| == c.nonceSize && c.open(aesKey, nonce, box) == Some(plaintext)
  }

  /** A byte string decrypts to a plaintext exactly when it is a frame whose parts open to it; all else is rejected. */
  lemma DecryptsIff(c: Ciphers, priv: PrivateKey, data: Bytes, plaintext: Bytes)
    ensures Decrypt(c, priv, data) == Some(plaintext) <==>
      exists encKey, aesKey, nonce, box :: Opens(c, priv, encKey, aesKey, nonce, box, plaintext) &&
        |encKey| < 65536 && data == Frame(encKey, nonce + box)
  {
    if Decrypt(c, priv, data) == Some(plaintext) {
      var (encKey, sealed) := Split(data).value;
      SplitIffFramed(data, encKey, sealed);
      var nonce, box := sealed[..c.nonceSize], sealed[c.nonceSize..];
      assert sealed == nonce + box;
      assert Opens(c, priv, encKey, c.rsaDecrypt(priv, encKey).value, nonce, box, plaintext);
    }
    if encKey, aesKey, nonce, box :| (Opens(c, priv, encKey, aesKey, nonce, box, plaintext) &&
      |encKey| < 65536 && data == Frame(encKey, nonce + box))
    {
      SplitIffFramed(data, encKey, nonce + box);
      assert (nonce + box)[..c.nonceSize] == nonce && (nonce + box)[c.nonceSize..] == box;
    }
  }
}
