/**
 * The cryptographic libraries the wallet generator calls, kept abstract.
 * Only the lengths they promise are known; everything proved elsewhere holds
 * for every choice of these functions.
 */
module Crypto {
  import opened Bytes

  /** A Keccak-256 digest. */
  type Digest = s: seq<byte> | |s| == 32 witness seq(32, i => 0)

  /** A big-endian curve coordinate as `BN.toBuffer()` gives it: no leading zero padding. */
  type Coordinate = s: seq<byte> | |s| <= 32

  datatype Point = Point(x: Coordinate, y: Coordinate)

  /** scrypt(password, salt, N, r, p, dkLen) returns dkLen bytes (RFC 7914). */
  type ScryptFn = f: (string, seq<byte>, nat, nat, nat, nat) -> seq<byte>
    | forall password, salt, n, r, p, dklen :: |f(password, salt, n, r, p, dklen)| == dklen
    witness (password: string, salt: seq<byte>, n: nat, r: nat, p: nat, dklen: nat) => Zeros(dklen)

  /** The AES-128 counter-mode keystream for (key, iv): its first len bytes. */
  type KeystreamFn = f: (seq<byte>, seq<byte>, nat) -> seq<byte>
    | forall key, iv, len :: |f(key, iv, len)| == len
    witness (key: seq<byte>, iv: seq<byte>, len: nat) => Zeros(len)

  datatype Primitives = Primitives(
    /** Keccak-256 (`sha3.keccak256`, `ethUtil.sha3`), the original non-NIST padding. */
    keccak256: seq<byte> -> Digest,
    /** `scryptsy`. */
    scrypt: ScryptFn,
    /** The affine coordinates of priv * G on secp256k1 (`generator.mul`). */
    pubPoint: seq<byte> -> Point,
    /** The block-cipher side of Node's `aes-128-ctr`. */
    keystream: KeystreamFn)

  // The primitives as plain functions of the suite, so that facts about them do
  // not depend on the heap in which a function value is applied.

  function Keccak256(prims: Primitives, m: seq<byte>): (d: Digest)
  {
    prims.keccak256(m)
  }

  function Scrypt(prims: Primitives, password: string, salt: seq<byte>, n: nat, r: nat, p: nat, dklen: nat)
    : (dk: seq<byte>)
    ensures |dk| == dklen
  {
    prims.scrypt(password, salt, n, r, p, dklen)
  }

  function PubPoint(prims: Primitives, privateKey: seq<byte>): (pt: Point)
  {
    prims.pubPoint(privateKey)
  }

  function Keystream(prims: Primitives, key: seq<byte>, iv: seq<byte>, len: nat): (ks: seq<byte>)
    ensures |ks| == len
  {
    prims.keystream(key, iv, len)
  }

  /**
   * `cipher.update(data)` of a fresh counter-mode cipher: the data XOR the keystream
   * (section 6.5 of NIST SP 800-38A). A stream mode returns every byte at once.
   */
  function CtrUpdate(prims: Primitives, key: seq<byte>, iv: seq<byte>, data: seq<byte>): (out: seq<byte>)
    ensures |out| == |data|
    ensures Xor(out, Keystream(prims, key, iv, |data|)) == data
  {
    var out := Xor(data, Keystream(prims, key, iv, |data|));
    XorTwice(data, Keystream(prims, key, iv, |data|));
    out
  }

  /** `cipher.final()` after an update: counter mode holds back nothing and pads nothing. */
  function CtrFinal(): (out: seq<byte>)
  {
    []
  }

  /** Counter-mode encryption under the same key and iv undoes itself. */
  lemma CtrTwice(prims: Primitives, key: seq<byte>, iv: seq<byte>, data: seq<byte>)
    ensures CtrUpdate(prims, key, iv, CtrUpdate(prims, key, iv, data)) == data
  {
  }
}
