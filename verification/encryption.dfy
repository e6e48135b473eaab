/** Quantum-key-based encryption (ncrypt/core/encryption.py): a QKD key (a
    list of bits) is packed into bytes, turned into an AES-256 key by an
    HMAC-SHA256 derivation, and used for AES-CBC with PKCS7 padding and an
    encrypt-then-MAC tag over `iv + ciphertext`.

    HMAC-SHA256, AES-CBC and PKCS7 are not modelled: they are the function
    fields of `Primitives`, and the properties below hold for every choice of
    them. The IV, which the source draws from `os.urandom`, is an input. */
module Encryption {
  import opened Wrappers
  import opened Bits

  datatype EncryptionError =
    | KeyTooShort           // ValueError: fewer than 8 * target_length key bits
    | AuthenticationFailed  // ValueError: the tag does not match
    | CipherFailure         // the block cipher rejects the ciphertext
    | InvalidPadding        // the PKCS7 unpadder rejects the plaintext

  /** The primitives the source borrows from `hmac`/`hashlib` and `cryptography`. */
  datatype Primitives = Primitives(
    hmacSha256: (seq<Byte>, seq<Byte>) -> seq<Byte>,                            // (key, message)
    aesCbcEncrypt: (seq<Byte>, seq<Byte>, seq<Byte>) -> seq<Byte>,              // (key, iv, data)
    aesCbcDecrypt: (seq<Byte>, seq<Byte>, seq<Byte>) -> Option<seq<Byte>>,    // None: rejected input
    pkcs7Pad: seq<Byte> -> seq<Byte>,
    pkcs7Unpad: seq<Byte> -> Option<seq<Byte>>)                                 // None: bad padding

  /** The ASCII bytes of `b"ncrypt-qkd-v1"`. */
  const DefaultSalt: seq<Byte> := [110, 99, 114, 121, 112, 116, 45, 113, 107, 100, 45, 118, 49]

  /** Bytes of an AES-256 key. */
  const AesKeyLength: int := 32

  /** Python's `s[:k]`; a negative `k` counts from the end. */
  function SlicePrefix<T>(s: seq<T>, k: int): (r: seq<T>)
    ensures 0 <= k <= |s| ==> r == s[..k]
    ensures |r| <= |s|
  {
    if k >= 0 then s[..Min(k, |s|)] else s[..Max(|s| + k, 0)]
  }

  /** What `key_to_bytes` returns: the first `8 * target_length` bits packed
      into bytes most significant bit first. */
  function KeyBytes(keyBits: seq<Bit>, targetLength: int): (r: Result<seq<Byte>, EncryptionError>)
    ensures r.Err? <==> |keyBits| < targetLength * 8
    ensures r.Err? ==> r.error == KeyTooShort
  {
    if |keyBits| < targetLength * 8 then Err(KeyTooShort)
    else
      var groups := PackMsb(SlicePrefix(keyBits, targetLength * 8), 8);
      PackBound(SlicePrefix(keyBits, targetLength * 8), 8);
      Pow2Eight();
      Ok(AsBytes(groups))
  }

  lemma KeyBytesArePacked(keyBits: seq<Bit>, targetLength: int, keyBytes: seq<Byte>)
    requires |keyBits| >= targetLength * 8
    requires keyBytes == PackMsb(SlicePrefix(keyBits, targetLength * 8), 8)
    ensures KeyBytes(keyBits, targetLength) == Ok(keyBytes)
  {
    Pow2Eight();
    var groups := PackMsb(SlicePrefix(keyBits, targetLength * 8), 8);
    PackBound(SlicePrefix(keyBits, targetLength * 8), 8);
    assert AsBytes(groups) == keyBytes;
  }

  /** `key_to_bytes`. */
  method KeyToBytes(keyBits: seq<Bit>, targetLength: int) returns (r: Result<seq<Byte>, EncryptionError>)
    ensures r.Err? <==> |keyBits| < targetLength * 8
    ensures r.Err? ==> r.error == KeyTooShort
    ensures r == KeyBytes(keyBits, targetLength)
  {
    if |keyBits| < targetLength * 8 {
      return Err(KeyTooShort);
    }
    var bits := SlicePrefix(keyBits, targetLength * 8);
    var groups := PackGroupsMsb(bits, 8);
    Pow2Eight();
    var keyBytes := AsBytes(groups);
    KeyBytesArePacked(keyBits, targetLength, keyBytes);
    return Ok(keyBytes);
  }

  /** A key of at least `8 * target_length` bits gives exactly `target_length` bytes. */
  lemma KeyBytesLength(keyBits: seq<Bit>, targetLength: nat)
    requires |keyBits| >= targetLength * 8
    ensures KeyBytes(keyBits, targetLength).Ok?
    ensures |KeyBytes(keyBits, targetLength).value| == targetLength
  {
    PackCount(keyBits[..targetLength * 8], 8);
    DivUnique(targetLength * 8 + 7, 8, targetLength, 7);
  }

  /** Byte `k` is the sum over `j < 8` of `key_bits[8k + j] << (7 - j)`. */
  lemma KeyBytesAt(keyBits: seq<Bit>, targetLength: nat, k: nat)
    requires |keyBits| >= targetLength * 8 && k < targetLength
    ensures KeyBytes(keyBits, targetLength).Ok?
    ensures k < |KeyBytes(keyBits, targetLength).value|
    ensures KeyBytes(keyBits, targetLength).value[k] == MsbWeighted(keyBits[8 * k .. 8 * k + 8])
  {
    KeyBytesLength(keyBits, targetLength);
    var bits := keyBits[..targetLength * 8];
    GroupStartIsProduct(k, 8);
    PackMsbAt(bits, 8, k);
    assert bits[8 * k .. Min(8 * k + 8, |bits|)] == keyBits[8 * k .. 8 * k + 8];
    MsbValueIsWeighted(keyBits[8 * k .. 8 * k + 8]);
  }

  /** Only the first `8 * target_length` bits are read. */
  lemma KeyBytesIgnoresTail(keyBits1: seq<Bit>, keyBits2: seq<Bit>, targetLength: nat)
    requires |keyBits1| >= targetLength * 8 && |keyBits2| >= targetLength * 8
    requires keyBits1[..targetLength * 8] == keyBits2[..targetLength * 8]
    ensures KeyBytes(keyBits1, targetLength) == KeyBytes(keyBits2, targetLength)
  {
  }

  // ---------------------------------------------------------------------
  // Key derivation and authenticated encryption

  /** `derive_key`: HMAC-SHA256 keyed with the salt (the default one when the
      salt is empty) over the first 32 bytes of the quantum key. */
  function DeriveKey(quantumKey: seq<Bit>, salt: seq<Byte>, prims: Primitives): (r: Result<seq<Byte>, EncryptionError>)
    ensures r.Err? <==> |quantumKey| < AesKeyLength * 8
    ensures r.Err? ==> r.error == KeyTooShort
  {
    var quantumBytes :- KeyBytes(quantumKey, AesKeyLength);
    var effectiveSalt := if salt == [] then DefaultSalt else salt;
    Ok(prims.hmacSha256(effectiveSalt, quantumBytes))
  }

  /** An empty salt is the same as passing `b"ncrypt-qkd-v1"`. */
  lemma DeriveKeyDefaultSalt(quantumKey: seq<Bit>, prims: Primitives)
    ensures DeriveKey(quantumKey, [], prims) == DeriveKey(quantumKey, DefaultSalt, prims)
  {
  }

  /** The derived key is the HMAC of the 32 MSB-first packed key bytes; bits
      after the first 256 do not change it. */
  lemma DeriveKeyUsesFirst256Bits(quantumKey1: seq<Bit>, quantumKey2: seq<Bit>, salt: seq<Byte>, prims: Primitives)
    requires |quantumKey1| >= 256 && |quantumKey2| >= 256
    requires quantumKey1[..256] == quantumKey2[..256]
    ensures DeriveKey(quantumKey1, salt, prims) == DeriveKey(quantumKey2, salt, prims)
  {
    KeyBytesIgnoresTail(quantumKey1, quantumKey2, AesKeyLength);
  }

  /** What `encrypt` returns. */
  datatype Sealed = Sealed(ciphertext: seq<Byte>, iv: seq<Byte>, tag: seq<Byte>)

  /** `encrypt` with the random IV as an input: PKCS7-pad, AES-CBC-encrypt
      under the derived key, and tag `iv + ciphertext` with HMAC-SHA256. */
  function Encrypt(plaintext: seq<Byte>, quantumKey: seq<Bit>, iv: seq<Byte>, prims: Primitives): (r: Result<Sealed, EncryptionError>)
    ensures r.Err? <==> |quantumKey| < AesKeyLength * 8
    ensures r.Ok? ==>
              var key := DeriveKey(quantumKey, [], prims).value;
              && r.value.iv == iv
              && r.value.ciphertext == prims.aesCbcEncrypt(key, iv, prims.pkcs7Pad(plaintext))
              && r.value.tag == prims.hmacSha256(key, iv + r.value.ciphertext)
  {
    var key :- DeriveKey(quantumKey, [], prims);
    var ciphertext := prims.aesCbcEncrypt(key, iv, prims.pkcs7Pad(plaintext));
    Ok(Sealed(ciphertext, iv, prims.hmacSha256(key, iv + ciphertext)))
  }

  /** `decrypt`: the tag is checked before anything is decrypted. */
  function Decrypt(ciphertext: seq<Byte>, iv: seq<Byte>, tag: seq<Byte>, quantumKey: seq<Bit>,
                   prims: Primitives): (r: Result<seq<Byte>, EncryptionError>)
    ensures |quantumKey| < AesKeyLength * 8 ==> r == Err(KeyTooShort)
    ensures |quantumKey| >= AesKeyLength * 8 ==>
              var key := DeriveKey(quantumKey, [], prims).value;
              (r == Err(AuthenticationFailed) <==> tag != prims.hmacSha256(key, iv + ciphertext))
  {
    var key :- DeriveKey(quantumKey, [], prims);
    var expectedTag := prims.hmacSha256(key, iv + ciphertext);
    if tag != expectedTag then Err(AuthenticationFailed)
    else
      match prims.aesCbcDecrypt(key, iv, ciphertext)
      case None => Err(CipherFailure)
      case Some(padded) =>
        match prims.pkcs7Unpad(padded)
        case None => Err(InvalidPadding)
        case Some(plaintext) => Ok(plaintext)
  }

  /** A wrong tag is rejected whatever the cipher and the unpadder would do:
      nothing is decrypted before the tag has been checked. */
  lemma DecryptChecksTagFirst(ciphertext: seq<Byte>, iv: seq<Byte>, tag: seq<Byte>, quantumKey: seq<Bit>,
                              prims1: Primitives, prims2: Primitives)
    requires |quantumKey| >= AesKeyLength * 8
    requires prims1.hmacSha256 == prims2.hmacSha256
    requires tag != prims1.hmacSha256(DeriveKey(quantumKey, [], prims1).value, iv + ciphertext)
    ensures Decrypt(ciphertext, iv, tag, quantumKey, prims1) == Err(AuthenticationFailed)
    ensures Decrypt(ciphertext, iv, tag, quantumKey, prims2) == Err(AuthenticationFailed)
  {
    assert DeriveKey(quantumKey, [], prims1) == DeriveKey(quantumKey, [], prims2);
  }

  /** AES-CBC decryption undoes encryption under the same key and IV. */
  ghost predicate CipherInverts(prims: Primitives) {
    forall key, iv, data :: prims.aesCbcDecrypt(key, iv, prims.aesCbcEncrypt(key, iv, data)) == Some(data)
  }

  /** PKCS7 unpadding undoes padding. */
  ghost predicate PaddingInverts(prims: Primitives) {
    forall data :: prims.pkcs7Unpad(prims.pkcs7Pad(data)) == Some(data)
  }

  /** Decrypting what `encrypt` produced, with the same quantum key, gives the
      plaintext back. */
  lemma DecryptInvertsEncrypt(plaintext: seq<Byte>, quantumKey: seq<Bit>, iv: seq<Byte>, prims: Primitives)
    requires CipherInverts(prims) && PaddingInverts(prims)
    requires |quantumKey| >= AesKeyLength * 8
    ensures Encrypt(plaintext, quantumKey, iv, prims).Ok?
    ensures var sealed := Encrypt(plaintext, quantumKey, iv, prims).value;
            Decrypt(sealed.ciphertext, sealed.iv, sealed.tag, quantumKey, prims) == Ok(plaintext)
  {
    var key := DeriveKey(quantumKey, [], prims).value;
    var padded := prims.pkcs7Pad(plaintext);
    assert prims.aesCbcDecrypt(key, iv, prims.aesCbcEncrypt(key, iv, padded)) == Some(padded);
    assert prims.pkcs7Unpad(padded) == Some(plaintext);
  }

  /** A message sealed under one quantum key is rejected under another whose
      derived key gives a different tag. */
  lemma DecryptUnderOtherKeyFails(plaintext: seq<Byte>, quantumKey: seq<Bit>, otherKey: seq<Bit>,
                                  iv: seq<Byte>, prims: Primitives)
    requires |quantumKey| >= AesKeyLength * 8 && |otherKey| >= AesKeyLength * 8
    requires var sealed := Encrypt(plaintext, quantumKey, iv, prims).value;
             prims.hmacSha256(DeriveKey(otherKey, [], prims).value, iv + sealed.ciphertext) != sealed.tag
    ensures var sealed := Encrypt(plaintext, quantumKey, iv, prims).value;
            Decrypt(sealed.ciphertext, sealed.iv, sealed.tag, otherKey, prims) == Err(AuthenticationFailed)
  {
  }
}
