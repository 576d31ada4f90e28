/**
 * The version-3 keystore record that `GetKeystoreFile` assembles (Web3 Secret
 * Storage Definition, version 3), and a reader in the form that definition
 * prescribes, against which the record is proved to decrypt.
 */
module Keystore {
  import opened Wrappers
  import opened Bytes
  import opened Crypto
  import opened Keys

  datatype CipherParams = CipherParams(iv: string)

  datatype KdfParams = KdfParams(dklen: nat, salt: string, n: nat, r: nat, p: nat)

  datatype CryptoSection = CryptoSection(
    ciphertext: string,
    cipherparams: CipherParams,
    cipher: string,
    kdf: string,
    kdfparams: KdfParams,
    mac: string)

  /** The object serialised to `wallets/wallet.json`. */
  datatype KeystoreFile = KeystoreFile(version: nat, id: string, address: string, crypto: CryptoSection)

  // ---------------------------------------------------------------------------
  // The writer: the steps of GetKeystoreFile.
  // ---------------------------------------------------------------------------

  /** The `kdfparams` object the record stores for a salt. */
  function KdfParamsFor(salt: Bytes32): (kp: KdfParams)
  {
    KdfParams(32, Hex(salt), 8192, 8, 1)
  }

  /**
   * `scrypt(password, salt, 8192, 8, 1, 32)`. The parameters stored in the record,
   * with the salt read back from hex, reproduce this key.
   */
  function DeriveKey(prims: Primitives, password: string, salt: Bytes32): (dk: Bytes32)
    ensures var kp := KdfParamsFor(salt);
            && FromHex(kp.salt) == Some(salt)
            && dk == Scrypt(prims, password, FromHex(kp.salt).value, kp.n, kp.r, kp.p, kp.dklen)
  {
    FromHexOfHex(salt);
    Scrypt(prims, password, salt, 8192, 8, 1, 32)
  }

  /** `scryptKey.slice(0, 16)`: the AES-128 key. */
  function EncryptionKey(dk: Bytes32): (key: Bytes16)
    ensures key + MacKey(dk) == dk
  {
    dk[..16]
  }

  /** `scryptKey.slice(16, 32)`: the MAC key; after the first 16 bytes it makes up the derived key. */
  function MacKey(dk: Bytes32): (key: Bytes16)
    ensures dk[..16] + key == dk
  {
    dk[16..32]
  }

  /** `Buffer.concat([cipher.update(privateKey), cipher.final()])` under the AES key and iv. */
  function Encrypt(prims: Primitives, dk: Bytes32, iv: Bytes16, plaintext: seq<byte>): (ct: seq<byte>)
    ensures |ct| == |plaintext|
    ensures CtrUpdate(prims, EncryptionKey(dk), iv, ct) == plaintext
  {
    CtrUpdate(prims, EncryptionKey(dk), iv, plaintext) + CtrFinal()
  }

  /**
   * `ethUtil.sha3(Buffer.concat([scryptKey.slice(16, 32), Buffer.from(ciphertext, "hex")]))`.
   * `Buffer.from` of a buffer copies it and ignores the encoding, so the input is
   * the MAC key followed by the ciphertext bytes. The re-encoded `sliced` buffer
   * of the line before is never read.
   */
  function Mac(prims: Primitives, dk: Bytes32, ct: seq<byte>): (mac: Digest)
    ensures forall other: Bytes32 :: MacKey(other) == MacKey(dk) ==> Keccak256(prims, MacKey(other) + ct) == mac
  {
    Keccak256(prims, MacKey(dk) + ct)
  }

  /** The record `GetKeystoreFile` builds from the wallet's fields and its fresh random inputs. */
  function BuildKeystore(
    prims: Primitives, privateKey: seq<byte>, password: string, ethAddress: string,
    salt: Bytes32, iv: Bytes16, id: string): (ks: KeystoreFile)
    ensures ks.version == 3 && ks.id == id
    ensures ks.crypto.cipher == "aes-128-ctr" && ks.crypto.kdf == "scrypt"
    ensures ks.crypto.kdfparams.dklen == 32 && ks.crypto.kdfparams.n == 8192
    ensures ks.crypto.kdfparams.r == 8 && ks.crypto.kdfparams.p == 1
  {
    var dk := DeriveKey(prims, password, salt);
    var ct := Encrypt(prims, dk, iv, privateKey);
    var mac := Mac(prims, dk, ct);
    KeystoreFile(
      3, id, SliceBack(ethAddress, 40),
      CryptoSection(
        Hex(ct), CipherParams(Hex(iv)), "aes-128-ctr", "scrypt",
        KdfParamsFor(salt),
        Hex(mac)))
  }

  // ---------------------------------------------------------------------------
  // The reader: what a compliant wallet does with the record and a password.
  // ---------------------------------------------------------------------------

  datatype DecryptError =
    | UnsupportedVersion
    | UnsupportedCipher
    | UnsupportedKdf
    | DerivedKeyTooShort
    | MalformedHex
    | MacMismatch

  /**
   * Re-derive the key from the stored scrypt parameters, check the MAC over
   * (MAC key ++ ciphertext), and only then undo the counter-mode encryption.
   */
  function Decrypt(prims: Primitives, ks: KeystoreFile, password: string): (r: Result<seq<byte>, DecryptError>)
    ensures r.Success? ==>
              && FromHex(ks.crypto.ciphertext).Some?
              && |r.value| == |FromHex(ks.crypto.ciphertext).value|
  {
    var c := ks.crypto;
    if ks.version != 3 then Failure(UnsupportedVersion)
    else if c.cipher != "aes-128-ctr" then Failure(UnsupportedCipher)
    else if c.kdf != "scrypt" then Failure(UnsupportedKdf)
    else if c.kdfparams.dklen < 32 then Failure(DerivedKeyTooShort)
    else
      match (FromHex(c.ciphertext), FromHex(c.cipherparams.iv), FromHex(c.kdfparams.salt), FromHex(c.mac))
      case (Some(ct), Some(iv), Some(salt), Some(mac)) =>
        var dk := Scrypt(prims, password, salt, c.kdfparams.n, c.kdfparams.r, c.kdfparams.p, c.kdfparams.dklen);
        if Keccak256(prims, dk[16..32] + ct) != mac then Failure(MacMismatch)
        else Success(CtrUpdate(prims, dk[..16], iv, ct))
      case _ => Failure(MalformedHex)
  }

  // ---------------------------------------------------------------------------
  // Properties of the record.
  // ---------------------------------------------------------------------------

  /** The shape of a version-3 record with a 32-byte key. */
  predicate IsV3Shape(ks: KeystoreFile)
  {
    && ks.version == 3
    && |ks.address| == 40 && IsHex(ks.address)
    && |ks.crypto.ciphertext| == 64 && IsHex(ks.crypto.ciphertext)
    && |ks.crypto.cipherparams.iv| == 32 && IsHex(ks.crypto.cipherparams.iv)
    && ks.crypto.cipher == "aes-128-ctr"
    && ks.crypto.kdf == "scrypt"
    && ks.crypto.kdfparams.dklen == 32
    && |ks.crypto.kdfparams.salt| == 64 && IsHex(ks.crypto.kdfparams.salt)
    && ks.crypto.kdfparams.n == 8192 && ks.crypto.kdfparams.r == 8 && ks.crypto.kdfparams.p == 1
    && |ks.crypto.mac| == 64 && IsHex(ks.crypto.mac)
  }

  /** Each hex field of the record decodes back to the bytes it was made from. */
  lemma KeystoreHexFields(
    prims: Primitives, privateKey: seq<byte>, password: string, ethAddress: string,
    salt: Bytes32, iv: Bytes16, id: string)
    ensures var ks := BuildKeystore(prims, privateKey, password, ethAddress, salt, iv, id);
            var dk := DeriveKey(prims, password, salt);
            var ct := Encrypt(prims, dk, iv, privateKey);
            && |ks.crypto.ciphertext| == 2 * |privateKey|
            && FromHex(ks.crypto.ciphertext) == Some(ct)
            && |ks.crypto.cipherparams.iv| == 32 && FromHex(ks.crypto.cipherparams.iv) == Some(iv)
            && |ks.crypto.kdfparams.salt| == 64 && FromHex(ks.crypto.kdfparams.salt) == Some(salt)
            && |ks.crypto.mac| == 64 && FromHex(ks.crypto.mac) == Some(Mac(prims, dk, ct))
  {
    var dk := DeriveKey(prims, password, salt);
    var ct := Encrypt(prims, dk, iv, privateKey);
    FromHexOfHex(ct);
    FromHexOfHex(iv);
    FromHexOfHex(salt);
    FromHexOfHex(Mac(prims, dk, ct));
  }

  /**
   * For an address made by GetEthAddress, the record's address is that address
   * without "0x": the 40 hex characters of the last 20 digest bytes.
   */
  lemma KeystoreAddress(
    prims: Primitives, pub: seq<byte>, privateKey: seq<byte>, password: string,
    salt: Bytes32, iv: Bytes16, id: string)
    ensures var ethAddress := EthAddress(Sha3Hash(prims, pub));
            var ks := BuildKeystore(prims, privateKey, password, ethAddress, salt, iv, id);
            && ks.address == ethAddress[2..]
            && |ks.address| == 40
            && FromHex(ks.address) == Some(Keccak256(prims, pub)[12..])
  {
    AddressForm(prims, pub);
    var ethAddress := EthAddress(Sha3Hash(prims, pub));
    assert SliceBack(ethAddress, 40) == ethAddress[2..];
  }

  /** A record made from a 32-byte private key and a derived address has the version-3 shape. */
  lemma KeystoreShape(
    prims: Primitives, pub: seq<byte>, privateKey: Bytes32, password: string,
    salt: Bytes32, iv: Bytes16, id: string)
    ensures IsV3Shape(BuildKeystore(prims, privateKey, password, EthAddress(Sha3Hash(prims, pub)), salt, iv, id))
  {
    KeystoreAddress(prims, pub, privateKey, password, salt, iv, id);
    KeystoreHexFields(prims, privateKey, password, EthAddress(Sha3Hash(prims, pub)), salt, iv, id);
  }

  /**
   * The record decrypts, with the password it was made with, to the private key:
   * the stored KDF parameters are the ones passed to scrypt, the stored iv the one
   * passed to the cipher, and the stored MAC the one the reader recomputes.
   */
  lemma DecryptRoundTrip(
    prims: Primitives, privateKey: seq<byte>, password: string, ethAddress: string,
    salt: Bytes32, iv: Bytes16, id: string)
    ensures Decrypt(prims, BuildKeystore(prims, privateKey, password, ethAddress, salt, iv, id), password)
            == Success(privateKey)
  {
    KeystoreHexFields(prims, privateKey, password, ethAddress, salt, iv, id);
  }

  /** The record with its ciphertext field replaced. */
  function WithCiphertext(ks: KeystoreFile, ciphertext: string): (t: KeystoreFile)
    ensures t.crypto.ciphertext == ciphertext
  {
    ks.(crypto := ks.crypto.(ciphertext := ciphertext))
  }

  /**
   * A record whose ciphertext was replaced by other bytes is accepted only on a
   * Keccak-256 collision between the two MAC inputs.
   */
  lemma TamperedCiphertextDetected(
    prims: Primitives, privateKey: seq<byte>, password: string, ethAddress: string,
    salt: Bytes32, iv: Bytes16, id: string, forged: seq<byte>)
    ensures var ks := BuildKeystore(prims, privateKey, password, ethAddress, salt, iv, id);
            var dk := DeriveKey(prims, password, salt);
            var ct := Encrypt(prims, dk, iv, privateKey);
            Decrypt(prims, WithCiphertext(ks, Hex(forged)), password).Success? ==>
              Keccak256(prims, MacKey(dk) + forged) == Keccak256(prims, MacKey(dk) + ct)
  {
    KeystoreHexFields(prims, privateKey, password, ethAddress, salt, iv, id);
    FromHexOfHex(forged);
  }

  /**
   * With another password the record is accepted only if its MAC key gives the
   * stored MAC: a collision, or the same MAC key.
   */
  lemma WrongPasswordDetected(
    prims: Primitives, privateKey: seq<byte>, password: string, ethAddress: string,
    salt: Bytes32, iv: Bytes16, id: string, other: string)
    ensures var ks := BuildKeystore(prims, privateKey, password, ethAddress, salt, iv, id);
            var ct := Encrypt(prims, DeriveKey(prims, password, salt), iv, privateKey);
            Decrypt(prims, ks, other).Success? ==>
              Keccak256(prims, MacKey(DeriveKey(prims, other, salt)) + ct)
              == Keccak256(prims, MacKey(DeriveKey(prims, password, salt)) + ct)
  {
    KeystoreHexFields(prims, privateKey, password, ethAddress, salt, iv, id);
  }
}
