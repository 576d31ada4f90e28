/**
 * Bytes, the lowercase hexadecimal encoding that Node's `Buffer.toString("hex")`
 * produces (and `js-sha3` returns), its inverse, byte-wise XOR, and the
 * negative-index `slice` that JavaScript strings offer.
 */
module Bytes {
  import opened Wrappers

  newtype byte = b: int | 0 <= b < 256

  type Bytes16 = s: seq<byte> | |s| == 16 witness seq(16, i => 0)
  type Bytes32 = s: seq<byte> | |s| == 32 witness seq(32, i => 0)

  /** n zero bytes. */
  function Zeros(n: nat): (z: seq<byte>)
    ensures |z| == n
  {
    seq(n, i => 0)
  }

  // ---------------------------------------------------------------------------
  // Hexadecimal encoding: two lowercase characters per byte, high nibble first.
  // ---------------------------------------------------------------------------

  /** The character for one nibble: '0'..'9', then 'a'..'f'. */
  function HexDigit(v: nat): (c: char)
    requires v < 16
    ensures '0' <= c <= '9' || 'a' <= c <= 'f'
  {
    if v < 10 then ('0' as int + v) as char else ('a' as int + (v - 10)) as char
  }

  /** The nibble a lowercase hex character stands for; None for any other character. */
  function HexValue(c: char): (r: Option<nat>)
    ensures r.Some? ==> r.value < 16
  {
    if '0' <= c <= '9' then Some(c as int - '0' as int)
    else if 'a' <= c <= 'f' then Some(c as int - 'a' as int + 10)
    else None
  }

  /** HexValue reads back exactly the characters HexDigit writes, and only those. */
  lemma HexDigitValue(c: char, v: nat)
    ensures HexValue(c) == Some(v) <==> v < 16 && c == HexDigit(v)
  {
  }

  function HexOfByte(b: byte): (s: string)
  {
    [HexDigit(b as nat / 16), HexDigit(b as nat % 16)]
  }

  /** `Buffer.toString("hex")`. */
  function Hex(bs: seq<byte>): (s: string)
    ensures |s| == 2 * |bs|
  {
    if |bs| == 0 then "" else HexOfByte(bs[0]) + Hex(bs[1..])
  }

  /** Decoding of a lowercase hex string; None on odd length or a non-hex character. */
  function FromHex(s: string): (r: Option<seq<byte>>)
    ensures r.Some? ==> 2 * |r.value| == |s|
    decreases |s|
  {
    if |s| == 0 then Some([])
    else if |s| == 1 then None
    else
      match (HexValue(s[0]), HexValue(s[1]), FromHex(s[2..]))
      case (Some(hi), Some(lo), Some(rest)) => Some([(16 * hi + lo) as byte] + rest)
      case _ => None
  }

  /** A string is lowercase hex of whole bytes. */
  predicate IsHex(s: string)
  {
    FromHex(s).Some?
  }

  lemma {:induction false} HexAppend(a: seq<byte>, b: seq<byte>)
    ensures Hex(a + b) == Hex(a) + Hex(b)
  {
    if |a| == 0 {
      assert a + b == b;
    } else {
      assert (a + b)[1..] == a[1..] + b;
      HexAppend(a[1..], b);
    }
  }

  /** Dropping the first 2k characters of the hex is dropping the first k bytes. */
  lemma HexSuffix(bs: seq<byte>, k: nat)
    requires k <= |bs|
    ensures Hex(bs)[2 * k..] == Hex(bs[k..])
  {
    assert bs == bs[..k] + bs[k..];
    HexAppend(bs[..k], bs[k..]);
  }

  lemma {:induction false} FromHexOfHex(bs: seq<byte>)
    ensures FromHex(Hex(bs)) == Some(bs)
  {
    if |bs| > 0 {
      var s := Hex(bs);
      var b := bs[0] as nat;
      HexDigitValue(s[0], b / 16);
      HexDigitValue(s[1], b % 16);
      assert s[2..] == Hex(bs[1..]);
      FromHexOfHex(bs[1..]);
      assert bs == [bs[0]] + bs[1..];
    }
  }

  lemma {:induction false} HexOfFromHex(s: string, bs: seq<byte>)
    requires FromHex(s) == Some(bs)
    ensures Hex(bs) == s
    decreases |s|
  {
    if |s| > 0 {
      var hi, lo := HexValue(s[0]).value, HexValue(s[1]).value;
      HexDigitValue(s[0], hi);
      HexDigitValue(s[1], lo);
      var b := (16 * hi + lo) as byte;
      assert b as nat / 16 == hi && b as nat % 16 == lo;
      HexOfFromHex(s[2..], bs[1..]);
      assert s == s[..2] + s[2..];
    }
  }

  /** Hex and FromHex are inverse bijections between byte strings and lowercase hex strings. */
  lemma HexRoundTrip(s: string, bs: seq<byte>)
    ensures FromHex(s) == Some(bs) <==> Hex(bs) == s
  {
    if FromHex(s) == Some(bs) {
      HexOfFromHex(s, bs);
    }
    if Hex(bs) == s {
      FromHexOfHex(bs);
    }
  }

  lemma HexInjective(a: seq<byte>, b: seq<byte>)
    ensures Hex(a) == Hex(b) <==> a == b
  {
    FromHexOfHex(a);
    FromHexOfHex(b);
  }

  // ---------------------------------------------------------------------------
  // JavaScript's `s.slice(-k)`: the last k characters, or all of s if it is shorter.
  // Since -0 is 0, `s.slice(-0)` is the whole string.
  // ---------------------------------------------------------------------------

  function SliceBack(s: string, k: nat): (r: string)
    ensures |r| == if k == 0 || |s| < k then |s| else k
    ensures s == s[..|s| - |r|] + r
  {
    if k == 0 || |s| < k then s else s[|s| - k..]
  }

  // ---------------------------------------------------------------------------
  // Exclusive or, bit by bit.
  // ---------------------------------------------------------------------------

  function Pow2(n: nat): (r: nat)
    ensures r >= 1
  {
    if n == 0 then 1 else 2 * Pow2(n - 1)
  }

  /** The XOR of the low n bits of a and b. */
  function XorBits(a: nat, b: nat, n: nat): (r: nat)
    ensures r < Pow2(n)
  {
    if n == 0 then 0 else (a % 2 + b % 2) % 2 + 2 * XorBits(a / 2, b / 2, n - 1)
  }

  /** The parity bit of a XOR b, from the parity bits of a and b. */
  lemma ParityXor(a: nat, b: nat)
    ensures (((a % 2 + b % 2) % 2) + b % 2) % 2 == a % 2
  {
    if a % 2 == 0 {
      assert b % 2 == 0 || b % 2 == 1;
    }
  }

  lemma {:induction false} XorBitsTwice(a: nat, b: nat, n: nat)
    requires a < Pow2(n)
    ensures XorBits(XorBits(a, b, n), b, n) == a
  {
    if n > 0 {
      var d := (a % 2 + b % 2) % 2;
      var k := XorBits(a / 2, b / 2, n - 1);
      var c := d + 2 * k;
      assert XorBits(a, b, n) == c;
      assert c % 2 == d && c / 2 == k;
      XorBitsTwice(a / 2, b / 2, n - 1);
      var e := XorBits(k, b / 2, n - 1);
      assert e == a / 2;
      ParityXor(a, b);
      var f := (d + b % 2) % 2;
      assert f == a % 2;
      assert XorBits(c, b, n) == f + 2 * e;
    }
  }

  function XorByte(a: byte, b: byte): (r: byte)
  {
    XorBits(a as nat, b as nat, 8) as byte
  }

  lemma XorByteTwice(a: byte, b: byte)
    ensures XorByte(XorByte(a, b), b) == a
  {
    XorBitsTwice(a as nat, b as nat, 8);
  }

  /** Byte-wise XOR of data with a pad of the same length. */
  function Xor(data: seq<byte>, pad: seq<byte>): (r: seq<byte>)
    requires |pad| == |data|
    ensures |r| == |data|
  {
    seq(|data|, i requires 0 <= i < |data| => XorByte(data[i], pad[i]))
  }

  /** XOR-ing twice with the same pad gives the data back. */
  lemma XorTwice(data: seq<byte>, pad: seq<byte>)
    requires |pad| == |data|
    ensures Xor(Xor(data, pad), pad) == data
  {
    forall i | 0 <= i < |data|
      ensures Xor(Xor(data, pad), pad)[i] == data[i]
    {
      XorByteTwice(data[i], pad[i]);
    }
  }
}
