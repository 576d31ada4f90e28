/**
 * The byte layout of the public key (`GetPublicKey`) and the address cut out of
 * its Keccak-256 digest (`GetEthAddress`).
 */
module Keys {
  import opened Wrappers
  import opened Bytes
  import opened Crypto

  /**
   * `Buffer.concat([x, y])` of the two coordinate buffers. The buffers are not
   * padded, so the key is shorter than 64 bytes when a coordinate has leading zero bytes.
   */
  function PublicKeyBytes(pt: Point): (pub: seq<byte>)
    ensures |pub| == |pt.x| + |pt.y| <= 64
    ensures pub[..|pt.x|] == pt.x && pub[|pt.x|..] == pt.y
  {
    pt.x + pt.y
  }

  /** s preceded by enough zero bytes to make n bytes. */
  function LeftPad(s: seq<byte>, n: nat): (r: seq<byte>)
    requires |s| <= n
    ensures |r| == n && r[n - |s|..] == s
    ensures forall i :: 0 <= i < n - |s| ==> r[i] == 0
  {
    Zeros(n - |s|) + s
  }

  /** The 64-byte key of the Yellow Paper: each coordinate as a 32-byte big-endian string. */
  function StandardPublicKey(pt: Point): (pub: seq<byte>)
    ensures |pub| == 64
  {
    LeftPad(pt.x, 32) + LeftPad(pt.y, 32)
  }

  /**
   * The unpadded layout agrees with the standard one exactly when both coordinates
   * already take 32 bytes; otherwise the key, and so the address, differ from it.
   */
  lemma PublicKeyIsStandardIff(pt: Point)
    ensures PublicKeyBytes(pt) == StandardPublicKey(pt) <==> |pt.x| == 32 && |pt.y| == 32
  {
  }

  /** `sha3.keccak256(publicKeyBuffer)`: js-sha3 returns the digest as lowercase hex. */
  function Sha3Hash(prims: Primitives, pub: seq<byte>): (h: string)
    ensures |h| == 64 && FromHex(h) == Some(Keccak256(prims, pub))
  {
    FromHexOfHex(Keccak256(prims, pub));
    Hex(Keccak256(prims, pub))
  }

  /** `"0x" + sha3Hash.slice(-40)`. */
  function EthAddress(sha3Hash: string): (addr: string)
  {
    "0x" + SliceBack(sha3Hash, 40)
  }

  /**
   * For any 64-character hex digest string, the address is 42 characters and its
   * part after "0x" decodes to the last 20 bytes of the digest.
   */
  lemma EthAddressOfHash(sha3Hash: string)
    requires |sha3Hash| == 64 && IsHex(sha3Hash)
    ensures |EthAddress(sha3Hash)| == 42 && EthAddress(sha3Hash)[..2] == "0x"
    ensures FromHex(EthAddress(sha3Hash)[2..]) == Some(FromHex(sha3Hash).value[12..])
  {
    var digest := FromHex(sha3Hash).value;
    HexOfFromHex(sha3Hash, digest);
    HexSuffix(digest, 12);
    FromHexOfHex(digest[12..]);
    assert EthAddress(sha3Hash)[2..] == Hex(digest[12..]);
  }

  /**
   * The address is "0x" and the lowercase hex of digest bytes 12..32: the last
   * 20 bytes of Keccak-256 of the public key, 42 characters in all.
   */
  lemma AddressForm(prims: Primitives, pub: seq<byte>)
    ensures EthAddress(Sha3Hash(prims, pub)) == "0x" + Hex(Keccak256(prims, pub)[12..])
    ensures |EthAddress(Sha3Hash(prims, pub))| == 42
    ensures FromHex(EthAddress(Sha3Hash(prims, pub))[2..]) == Some(Keccak256(prims, pub)[12..])
  {
    var digest := Keccak256(prims, pub);
    HexSuffix(digest, 12);
    FromHexOfHex(digest[12..]);
  }

  /** Two public keys share an address exactly when their digests share the last 20 bytes. */
  lemma SameAddressIff(prims: Primitives, pub1: seq<byte>, pub2: seq<byte>)
    ensures EthAddress(Sha3Hash(prims, pub1)) == EthAddress(Sha3Hash(prims, pub2))
            <==> Keccak256(prims, pub1)[12..] == Keccak256(prims, pub2)[12..]
  {
    AddressForm(prims, pub1);
    AddressForm(prims, pub2);
    HexInjective(Keccak256(prims, pub1)[12..], Keccak256(prims, pub2)[12..]);
    assert ("0x" + Hex(Keccak256(prims, pub1)[12..]))[2..] == Hex(Keccak256(prims, pub1)[12..]);
    assert ("0x" + Hex(Keccak256(prims, pub2)[12..]))[2..] == Hex(Keccak256(prims, pub2)[12..]);
  }
}
