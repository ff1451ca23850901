/**
 The dump filler of the trace generator (`getRandomHexString`, app.go): `n`
 random bytes rendered as lower-case hexadecimal text. The random bytes are
 a parameter; the encoding is the standard two-digits-per-byte one.
 */
module Hex {

  type Byte = b: int | 0 <= b < 256

  import opened Wrappers

  /** The characters `0`-`9` and `a`-`f`. */
  predicate IsHexDigit(c: char) {
    '0' <= c <= '9' || 'a' <= c <= 'f'
  }

  /** Every character of `s` is a lower-case hex digit. */
  predicate AllHex(s: string) {
    forall k :: 0 <= k < |s| ==> IsHexDigit(s[k])
  }

  /** The character for a nibble. */
  function DigitOf(v: int): (c: char)
    requires 0 <= v < 16
    ensures IsHexDigit(c)
  {
    if v < 10 then ('0' as int + v) as char else ('a' as int + v - 10) as char
  }

  /** The nibble a lower-case hex digit stands for. */
  function ValueOf(c: char): (v: int)
    requires IsHexDigit(c)
    ensures 0 <= v < 16 && DigitOf(v) == c
  {
    if '0' <= c <= '9' then c as int - '0' as int else c as int - 'a' as int + 10
  }

  lemma ValueOfDigit(v: int)
    requires 0 <= v < 16
    ensures ValueOf(DigitOf(v)) == v
  {
  }

  /** `hex.EncodeToString`: high nibble first. */
  function Encode(bytes: seq<Byte>): (s: string)
    ensures |s| == 2 * |bytes|
    ensures AllHex(s)
  {
    if |bytes| == 0 then []
    else [DigitOf(bytes[0] / 16), DigitOf(bytes[0] % 16)] + Encode(bytes[1..])
  }

  /** The byte a pair of hex digits stands for. */
  function ByteOf(hi: char, lo: char): (b: Byte)
    requires IsHexDigit(hi) && IsHexDigit(lo)
    ensures b / 16 == ValueOf(hi) && b % 16 == ValueOf(lo)
  {
    ValueOf(hi) * 16 + ValueOf(lo)
  }

  lemma EncodeHead(bytes: seq<Byte>)
    requires |bytes| > 0
    ensures Encode(bytes)[0] == DigitOf(bytes[0] / 16)
    ensures Encode(bytes)[1] == DigitOf(bytes[0] % 16)
    ensures Encode(bytes)[2..] == Encode(bytes[1..])
  {
  }

  /** Inverse of `Encode`: fails on odd length or a character that is not a lower-case hex digit. */
  function Decode(s: string): (r: Option<seq<Byte>>)
    ensures r.Some? ==> 2 * |r.value| == |s|
    decreases |s|
  {
    if |s| == 0 then Some([])
    else if |s| == 1 || !IsHexDigit(s[0]) || !IsHexDigit(s[1]) then None
    else match Decode(s[2..])
      case None => None
      case Some(rest) => Some([ByteOf(s[0], s[1])] + rest)
  }

  /** Decoding what was encoded gives the bytes back. */
  lemma {:induction false} DecodeEncode(bytes: seq<Byte>)
    ensures Decode(Encode(bytes)) == Some(bytes)
  {
    if |bytes| > 0 {
      EncodeHead(bytes);
      DecodeEncode(bytes[1..]);
      ValueOfDigit(bytes[0] / 16);
      ValueOfDigit(bytes[0] % 16);
      assert ByteOf(Encode(bytes)[0], Encode(bytes)[1]) == bytes[0];
      assert [bytes[0]] + bytes[1..] == bytes;
    }
  }

  /** Encoding what was decoded gives the text back. */
  lemma {:induction false} EncodeDecode(s: string)
    requires Decode(s).Some?
    ensures Encode(Decode(s).value) == s
    decreases |s|
  {
    if |s| > 0 {
      var rest := Decode(s[2..]).value;
      EncodeDecode(s[2..]);
      var b := ByteOf(s[0], s[1]);
      assert Decode(s).value == [b] + rest;
      EncodeHead([b] + rest);
      assert ([b] + rest)[1..] == rest;
      assert s == [s[0], s[1]] + s[2..];
    }
  }

  /**
   `getRandomHexString(n)`: reads `n` bytes from the random source (here the
   function `entropy`, indexed by position) and hex-encodes them.
   */
  function RandomHexString(n: nat, entropy: int -> Byte): (s: string)
    ensures |s| == 2 * n
    ensures AllHex(s)
    ensures Decode(s) == Some(seq(n, i => entropy(i)))
  {
    var buf := seq(n, i => entropy(i));
    DecodeEncode(buf);
    Encode(buf)
  }
}
