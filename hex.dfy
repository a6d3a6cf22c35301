/**
  Hexadecimal renderings of byte strings: `binascii.hexlify(bs).decode()` and
  `bs.hex()` (both lower case), Python's `str.upper()` on them, and the
  reading back of such a rendering, which is what makes a rendering usable as
  a dictionary key that stands for the bytes.
 */
module Hex {
  import opened Wrappers
  import opened Bytes

  const LowerDigits: string := "0123456789abcdef"
  const UpperDigits: string := "0123456789ABCDEF"

  /** `binascii.hexlify(bs).decode('utf-8')`, the same text as `bs.hex()`. */
  function Hexlify(bs: seq<byte>): (s: string)
    ensures |s| == 2 * |bs|
  {
    if bs == [] then "" else [LowerDigits[bs[0] / 16], LowerDigits[bs[0] % 16]] + Hexlify(bs[1..])
  }

  /** `str.upper()` on one ASCII character. */
  function UpperChar(c: char): char
  {
    if 'a' <= c <= 'z' then (c as int - 32) as char else c
  }

  /** `str.upper()` on ASCII text. */
  function Upper(s: string): (u: string)
    ensures |u| == |s|
  {
    if s == [] then "" else [UpperChar(s[0])] + Upper(s[1..])
  }

  /** The value of one hexadecimal digit in either case, as `bytes.fromhex` accepts it. */
  function DigitValue(c: char): Option<nat>
  {
    if '0' <= c <= '9' then Some(c as int - '0' as int)
    else if 'a' <= c <= 'f' then Some(c as int - 'a' as int + 10)
    else if 'A' <= c <= 'F' then Some(c as int - 'A' as int + 10)
    else None
  }

  /** Reference reader of hex text, the inverse of `bytes.hex()`: pairs of digits, None on anything else. */
  function Unhexlify(s: string): (r: Option<seq<byte>>)
    ensures r.Some? ==> 2 * |r.value| == |s|
  {
    if s == [] then Some([])
    else if |s| == 1 then None
    else match (DigitValue(s[0]), DigitValue(s[1]), Unhexlify(s[2..]))
      case (Some(hi), Some(lo), Some(rest)) =>
        assert hi < 16 && lo < 16;
        Some([hi * 16 + lo] + rest)
      case _ => None
  }

  /** Each lower-case digit, in either case, reads back as its own value. */
  lemma DigitRoundTrip(d: nat)
    requires d < 16
    ensures DigitValue(LowerDigits[d]) == Some(d)
    ensures DigitValue(UpperChar(LowerDigits[d])) == Some(d)
  {
  }

  /** Reading back two digits in front of a readable rest. */
  lemma UnhexlifyPair(c1: char, c2: char, t: string, hi: nat, lo: nat, rest: seq<byte>)
    requires DigitValue(c1) == Some(hi) && DigitValue(c2) == Some(lo)
    requires hi < 16 && lo < 16
    requires Unhexlify(t) == Some(rest)
    ensures Unhexlify([c1, c2] + t) == Some([hi * 16 + lo] + rest)
  {
    var s := [c1, c2] + t;
    assert s[0] == c1 && s[1] == c2 && s[2..] == t;
  }

  /** Upper-casing distributes over concatenation. */
  lemma {:induction false} UpperConcat(a: string, b: string)
    ensures Upper(a + b) == Upper(a) + Upper(b)
  {
    if a == [] {
      assert a + b == b;
    } else {
      assert (a + b)[0] == a[0];
      assert (a + b)[1..] == a[1..] + b;
      UpperConcat(a[1..], b);
      calc {
        Upper(a + b);
        [UpperChar(a[0])] + Upper(a[1..] + b);
        [UpperChar(a[0])] + (Upper(a[1..]) + Upper(b));
        ([UpperChar(a[0])] + Upper(a[1..])) + Upper(b);
      }
    }
  }

  /** Reading back a lower-case rendering gives the bytes that were rendered. */
  lemma {:induction false} HexRoundTrip(bs: seq<byte>)
    ensures Unhexlify(Hexlify(bs)) == Some(bs)
  {
    if bs != [] {
      var hi, lo := bs[0] / 16, bs[0] % 16;
      DigitRoundTrip(hi);
      DigitRoundTrip(lo);
      HexRoundTrip(bs[1..]);
      UnhexlifyPair(LowerDigits[hi], LowerDigits[lo], Hexlify(bs[1..]), hi, lo, bs[1..]);
      assert [bs[0]] + bs[1..] == bs;
    }
  }

  /** Reading back an upper-cased rendering gives the bytes that were rendered. */
  lemma {:induction false} UpperHexRoundTrip(bs: seq<byte>)
    ensures Unhexlify(Upper(Hexlify(bs))) == Some(bs)
  {
    if bs != [] {
      var hi, lo := bs[0] / 16, bs[0] % 16;
      var pair := [LowerDigits[hi], LowerDigits[lo]];
      UpperConcat(pair, Hexlify(bs[1..]));
      assert Upper(pair) == [UpperChar(LowerDigits[hi]), UpperChar(LowerDigits[lo])] by {
        assert pair[1..][1..] == [];
      }
      DigitRoundTrip(hi);
      DigitRoundTrip(lo);
      UpperHexRoundTrip(bs[1..]);
      UnhexlifyPair(UpperChar(LowerDigits[hi]), UpperChar(LowerDigits[lo]), Upper(Hexlify(bs[1..])), hi, lo, bs[1..]);
      assert [bs[0]] + bs[1..] == bs;
    }
  }

  /** Rendering distributes over concatenation. */
  lemma {:induction false} HexlifyConcat(a: seq<byte>, b: seq<byte>)
    ensures Hexlify(a + b) == Hexlify(a) + Hexlify(b)
  {
    if a == [] {
      assert a + b == b;
    } else {
      assert (a + b)[0] == a[0];
      assert (a + b)[1..] == a[1..] + b;
      HexlifyConcat(a[1..], b);
    }
  }

  /** The upper-case rendering of a concatenation is the concatenation of the renderings. */
  lemma UpperHexConcat(a: seq<byte>, b: seq<byte>)
    ensures Upper(Hexlify(a + b)) == Upper(Hexlify(a)) + Upper(Hexlify(b))
  {
    HexlifyConcat(a, b);
    UpperConcat(Hexlify(a), Hexlify(b));
  }

  /** Upper-casing a lower-case digit gives the upper-case digit of the same value. */
  lemma UpperDigit(d: nat)
    requires d < 16
    ensures UpperChar(LowerDigits[d]) == UpperDigits[d]
  {
  }

  /** The upper-case rendering of a byte string, one leading byte at a time. */
  lemma UpperHexCons(b: byte, rest: seq<byte>)
    ensures Upper(Hexlify([b] + rest)) == [UpperDigits[b / 16], UpperDigits[b % 16]] + Upper(Hexlify(rest))
  {
    var pair := [LowerDigits[b / 16], LowerDigits[b % 16]];
    assert ([b] + rest)[0] == b && ([b] + rest)[1..] == rest;
    UpperConcat(pair, Hexlify(rest));
    assert Upper(pair) == [UpperChar(pair[0]), UpperChar(pair[1])] by {
      assert pair[1..][1..] == [];
    }
    UpperDigit(b / 16);
    UpperDigit(b % 16);
  }

  /** The upper-case rendering of four bytes, digit by digit. */
  lemma UpperHex4(u: seq<byte>)
    requires |u| == 4
    ensures Upper(Hexlify(u)) == [UpperDigits[u[0] / 16], UpperDigits[u[0] % 16], UpperDigits[u[1] / 16], UpperDigits[u[1] % 16],
                                  UpperDigits[u[2] / 16], UpperDigits[u[2] % 16], UpperDigits[u[3] / 16], UpperDigits[u[3] % 16]]
  {
    UpperHexCons(u[3], []);
    assert [u[3]] + [] == u[3..];
    UpperHexCons(u[2], u[3..]);
    assert [u[2]] + u[3..] == u[2..];
    UpperHexCons(u[1], u[2..]);
    assert [u[1]] + u[2..] == u[1..];
    UpperHexCons(u[0], u[1..]);
    assert [u[0]] + u[1..] == u;
  }

  /** Two byte strings with the same upper-case rendering are equal. */
  lemma UpperHexInjective(a: seq<byte>, b: seq<byte>)
    requires Upper(Hexlify(a)) == Upper(Hexlify(b))
    ensures a == b
  {
    UpperHexRoundTrip(a);
    UpperHexRoundTrip(b);
  }
}
