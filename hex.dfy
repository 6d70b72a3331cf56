/**
 * Upper-case hexadecimal text, as produced by `bytes.hex().upper()` and by the
 * `X` format specifier, and read back by `int(s, 16)`.
 */
module Hex {
  import opened Wrappers

  newtype byte = b: int | 0 <= b < 256

  /** The digit `f"{n:X}"` writes for `n` below 16: `0`-`9`, then `A`-`F`. */
  function HexDigit(n: int): (c: char)
    requires 0 <= n < 16
  {
    if n < 10 then ('0' as int + n) as char else ('A' as int + n - 10) as char
  }

  predicate IsUpperHexDigit(c: char) {
    '0' <= c <= '9' || 'A' <= c <= 'F'
  }

  predicate IsUpperHex(s: string) {
    forall i :: 0 <= i < |s| ==> IsUpperHexDigit(s[i])
  }

  /** The value of one digit as `int(c, 16)` reads it: both cases are accepted. */
  function HexValue(c: char): (r: Option<int>)
    ensures r.Some? ==> 0 <= r.value < 16
    ensures r.Some? && IsUpperHexDigit(c) ==> HexDigit(r.value) == c
  {
    if '0' <= c <= '9' then Some(c as int - '0' as int)
    else if 'A' <= c <= 'F' then Some(c as int - 'A' as int + 10)
    else if 'a' <= c <= 'f' then Some(c as int - 'a' as int + 10)
    else None
  }

  lemma HexValueOfDigit(n: int)
    requires 0 <= n < 16
    ensures HexValue(HexDigit(n)) == Some(n)
  {
  }

  /** `f"{b:02X}"` for one byte. */
  function ByteToHex(b: byte): (s: string)
    ensures |s| == 2 && IsUpperHex(s)
  {
    [HexDigit(b as int / 16), HexDigit(b as int % 16)]
  }

  /** `int(s, 16)` on a two-character slice made of hexadecimal digits. */
  function ParseHexByte(s: string): (r: Option<byte>)
    requires |s| == 2
  {
    var hi := HexValue(s[0]);
    var lo := HexValue(s[1]);
    if hi.Some? && lo.Some? then Some((hi.value * 16 + lo.value) as byte) else None
  }

  lemma ByteHexRoundTrip(b: byte)
    ensures ParseHexByte(ByteToHex(b)) == Some(b)
  {
    HexValueOfDigit(b as int / 16);
    HexValueOfDigit(b as int % 16);
  }

  /** `bytes.hex().upper()`: two upper-case digits per byte, in order. */
  function BytesToHex(bs: seq<byte>): (s: string)
    ensures |s| == |bs| + |bs| && IsUpperHex(s)
  {
    if bs == [] then [] else ByteToHex(bs[0]) + BytesToHex(bs[1..])
  }

  /** Reads a hexadecimal string two characters at a time; None for a bad digit or an odd length. */
  function HexToBytes(s: string): (r: Option<seq<byte>>)
    ensures r.Some? ==> |r.value| + |r.value| == |s|
  {
    if s == [] then Some([])
    else if |s| == 1 then None
    else
      var b := ParseHexByte(s[..2]);
      var rest := HexToBytes(s[2..]);
      if b.Some? && rest.Some? then Some([b.value] + rest.value) else None
  }

  /** Reading exactly two characters reads one byte. */
  lemma HexToBytesPair(s: string)
    requires |s| == 2
    ensures HexToBytes(s) == if ParseHexByte(s).Some? then Some([ParseHexByte(s).value]) else None
  {
    assert s[..2] == s;
    assert s[2..] == [];
    assert HexToBytes(s[2..]) == Some([]);
    if ParseHexByte(s).Some? {
      assert [ParseHexByte(s).value] + [] == [ParseHexByte(s).value];
    }
  }

  lemma {:induction false} BytesHexRoundTrip(bs: seq<byte>)
    ensures HexToBytes(BytesToHex(bs)) == Some(bs)
  {
    if bs != [] {
      var s := BytesToHex(bs);
      assert s[..2] == ByteToHex(bs[0]);
      assert s[2..] == BytesToHex(bs[1..]);
      ByteHexRoundTrip(bs[0]);
      BytesHexRoundTrip(bs[1..]);
      assert [bs[0]] + bs[1..] == bs;
    }
  }

  lemma HexPairRoundTrip(s: string)
    requires |s| == 2 && IsUpperHexDigit(s[0]) && IsUpperHexDigit(s[1])
    ensures ParseHexByte(s).Some? && ByteToHex(ParseHexByte(s).value) == s
  {
    UpperDigitValue(s[0]);
    UpperDigitValue(s[1]);
    var hi := HexValue(s[0]).value;
    var lo := HexValue(s[1]).value;
    PairDivMod(hi, lo);
    var b := (hi * 16 + lo) as byte;
    assert ByteToHex(b) == [HexDigit(hi), HexDigit(lo)];
  }

  lemma UpperDigitValue(c: char)
    requires IsUpperHexDigit(c)
    ensures HexValue(c).Some? && HexDigit(HexValue(c).value) == c
  {
  }

  lemma PairDivMod(hi: int, lo: int)
    requires 0 <= hi < 16 && 0 <= lo < 16
    ensures 0 <= hi * 16 + lo < 256 && (hi * 16 + lo) / 16 == hi && (hi * 16 + lo) % 16 == lo
  {
  }

  /** An upper-case hexadecimal string is the rendering of the bytes it reads as. */
  lemma {:induction false} HexBytesRoundTrip(s: string)
    requires |s| % 2 == 0 && IsUpperHex(s)
    ensures HexToBytes(s).Some? && BytesToHex(HexToBytes(s).value) == s
  {
    if s != [] {
      assert IsUpperHexDigit(s[0]) && IsUpperHexDigit(s[1]);
      HexPairRoundTrip(s[..2]);
      assert IsUpperHex(s[2..]) by {
        forall i | 0 <= i < |s| - 2 ensures IsUpperHexDigit(s[2..][i]) {
          assert s[2..][i] == s[i + 2];
        }
      }
      HexBytesRoundTrip(s[2..]);
      assert s[..2] + s[2..] == s;
    }
  }

  lemma ConcatAssoc<T>(x: seq<T>, y: seq<T>, z: seq<T>)
    ensures x + (y + z) == (x + y) + z
  {
  }

  /** Two readings joined: both must succeed. */
  function JoinBytes(x: Option<seq<byte>>, y: Option<seq<byte>>): Option<seq<byte>>
  {
    if x.Some? && y.Some? then Some(x.value + y.value) else None
  }

  /** Reading two hexadecimal strings one after the other reads their concatenation. */
  lemma {:induction false} HexToBytesConcat(a: string, b: string)
    requires |a| % 2 == 0
    ensures HexToBytes(a + b).Some? <==> HexToBytes(a).Some? && HexToBytes(b).Some?
    ensures HexToBytes(a + b).Some? ==>
              HexToBytes(a + b).value == HexToBytes(a).value + HexToBytes(b).value
  {
    HexToBytesJoin(a, b);
  }

  lemma {:induction false} HexToBytesJoin(a: string, b: string)
    requires |a| % 2 == 0
    ensures HexToBytes(a + b) == JoinBytes(HexToBytes(a), HexToBytes(b))
  {
    if a == [] {
      assert a + b == b;
      if HexToBytes(b).Some? {
        assert [] + HexToBytes(b).value == HexToBytes(b).value;
      }
    } else {
      HexToBytesJoin(a[2..], b);
      var ab := a + b;
      assert ab[..2] == a[..2];
      assert ab[2..] == a[2..] + b;
      HexToBytesUnfold(ab);
      HexToBytesUnfold(a);
      var hd := ParseHexByte(a[..2]);
      var ta := HexToBytes(a[2..]);
      var tb := HexToBytes(b);
      if hd.Some? && ta.Some? && tb.Some? {
        ConcatAssoc([hd.value], ta.value, tb.value);
      }
    }
  }

  lemma HexToBytesUnfold(s: string)
    requires |s| >= 2
    ensures var hd := ParseHexByte(s[..2]);
            var tl := HexToBytes(s[2..]);
            HexToBytes(s) == if hd.Some? && tl.Some? then Some([hd.value] + tl.value) else None
  {
  }

  /** `f"{n:0wX}"` for a value that fits in w digits. */
  function HexFixed(n: nat, width: nat): (s: string)
    ensures |s| == width && IsUpperHex(s)
  {
    if width == 0 then "" else HexFixed(n / 16, width - 1) + [HexDigit(n % 16)]
  }

  function Pow16(w: nat): (p: nat)
    ensures p >= 1
  {
    if w == 0 then 1 else 16 * Pow16(w - 1)
  }

  /** The value of a string of hexadecimal digits, most significant first. */
  function HexNumber(s: string): (r: Option<nat>)
  {
    if s == [] then Some(0)
    else
      var hi := HexNumber(s[..|s| - 1]);
      var lo := HexValue(s[|s| - 1]);
      if hi.Some? && lo.Some? then Some(hi.value * 16 + lo.value) else None
  }

  lemma {:induction false} HexFixedRoundTrip(n: nat, width: nat)
    requires n < Pow16(width)
    ensures HexNumber(HexFixed(n, width)) == Some(n)
  {
    if width > 0 {
      HexFixedRoundTrip(n / 16, width - 1);
      var s := HexFixed(n, width);
      assert s[..|s| - 1] == HexFixed(n / 16, width - 1);
      HexValueOfDigit(n % 16);
    }
  }
}
