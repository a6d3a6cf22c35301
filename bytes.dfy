/**
  Bytes and the two integer readings the decoder makes of them:
  Python's `int.from_bytes(bs, byteorder='big')` and
  `struct.unpack('b', bytes([b]))[0]` (the two's-complement signed byte).
 */
module Bytes {

  /** One octet of a Python `bytes` object. */
  type byte = x: int | 0 <= x < 256

  /** 256 to the power n: the number of distinct n-byte strings. */
  function Pow256(n: nat): (p: nat)
    ensures p >= 1
  {
    if n == 0 then 1 else 256 * Pow256(n - 1)
  }

  /** `int.from_bytes(bs, byteorder='big')`: the most significant byte comes first. */
  function FromBytesBE(bs: seq<byte>): (n: nat)
    ensures n < Pow256(|bs|)
  {
    if bs == [] then 0 else FromBytesBE(bs[..|bs| - 1]) * 256 + bs[|bs| - 1]
  }

  /** Reference encoder: `len` bytes, most significant first; the inverse of FromBytesBE on values that fit. */
  function ToBytesBE(n: nat, len: nat): (bs: seq<byte>)
    requires n < Pow256(len)
    ensures |bs| == len
  {
    if len == 0 then [] else ToBytesBE(n / 256, len - 1) + [n % 256]
  }

  /** Encoding a value that fits and reading it back gives the value. */
  lemma {:induction false} FromToBytesBE(n: nat, len: nat)
    requires n < Pow256(len)
    ensures FromBytesBE(ToBytesBE(n, len)) == n
  {
    if len > 0 {
      var bs := ToBytesBE(n, len);
      assert bs[..|bs| - 1] == ToBytesBE(n / 256, len - 1);
      FromToBytesBE(n / 256, len - 1);
    }
  }

  /** Reading a byte string and re-encoding it at its own width gives it back. */
  lemma {:induction false} ToFromBytesBE(bs: seq<byte>)
    ensures ToBytesBE(FromBytesBE(bs), |bs|) == bs
  {
    if bs != [] {
      var init := bs[..|bs| - 1];
      var n := FromBytesBE(bs);
      assert n / 256 == FromBytesBE(init) && n % 256 == bs[|bs| - 1];
      ToFromBytesBE(init);
      assert init + [bs[|bs| - 1]] == bs;
    }
  }

  /** A two-byte big-endian field is the high byte times 256 plus the low byte. */
  lemma FromBytesBE2(hi: byte, lo: byte)
    ensures FromBytesBE([hi, lo]) == hi * 256 + lo
    ensures FromBytesBE([hi, lo]) <= 65535
  {
  }

  /** `struct.unpack('b', bytes([b]))[0]`: the byte read as two's complement. */
  function ToSigned(b: byte): (s: int)
    ensures -128 <= s <= 127
    ensures s >= 0 <==> b < 128
    ensures ToUnsigned(s) == b
  {
    if b < 128 then b else b - 256
  }

  /** The byte whose two's-complement reading is s (Dafny's `%` is Euclidean). */
  function ToUnsigned(s: int): (b: byte)
  {
    s % 256
  }

  /** Every value in the signed byte range is the signed reading of exactly its own byte. */
  lemma SignedRoundTrip(s: int)
    requires -128 <= s <= 127
    ensures ToSigned(ToUnsigned(s)) == s
  {
  }
}
