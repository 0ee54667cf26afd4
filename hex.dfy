/** Bytes and their lowercase hexadecimal text, as Node's
    `Buffer.toString("hex")` writes it; used for generated event ids and for
    the text form of ObjectIds. */
module Hex {

  newtype byte = x: int | 0 <= x < 256

  const Digits: string := "0123456789abcdef"

  predicate IsHexChar(c: char) {
    ('0' <= c <= '9') || ('a' <= c <= 'f') || ('A' <= c <= 'F')
  }

  predicate IsLowerHexChar(c: char) {
    ('0' <= c <= '9') || ('a' <= c <= 'f')
  }

  predicate AllHex(s: string) {
    forall k :: 0 <= k < |s| ==> IsHexChar(s[k])
  }

  /** The value of one hexadecimal digit, either case. */
  function DigitValue(c: char): (v: int)
    requires IsHexChar(c)
    ensures 0 <= v < 16
  {
    if '0' <= c <= '9' then c as int - '0' as int
    else if 'a' <= c <= 'f' then c as int - 'a' as int + 10
    else c as int - 'A' as int + 10
  }

  /** The lowercase digit of a value below 16; reading it back gives the value. */
  function Digit(v: int): (c: char)
    requires 0 <= v < 16
    ensures IsLowerHexChar(c) && DigitValue(c) == v
  {
    Digits[v]
  }

  function ByteToHex(b: byte): string {
    [Digit(b as int / 16), Digit(b as int % 16)]
  }

  /** Two lowercase hexadecimal digits per byte, high nibble first. */
  function ToHex(bs: seq<byte>): (r: string)
    ensures |r| == 2 * |bs|
    ensures forall k :: 0 <= k < |r| ==> IsLowerHexChar(r[k])
  {
    if bs == [] then [] else ByteToHex(bs[0]) + ToHex(bs[1..])
  }

  /** Hexadecimal text back to bytes, two digits per byte. */
  function FromHex(s: string): (bs: seq<byte>)
    requires |s| % 2 == 0 && AllHex(s)
    ensures |bs| == |s| / 2
  {
    if s == [] then []
    else [(DigitValue(s[0]) * 16 + DigitValue(s[1])) as byte] + FromHex(s[2..])
  }

  /** Reading the hexadecimal text of some bytes gives those bytes back. */
  lemma {:induction false} FromHexToHex(bs: seq<byte>)
    ensures AllHex(ToHex(bs))
    ensures FromHex(ToHex(bs)) == bs
  {
    if bs != [] {
      var s := ToHex(bs);
      assert s[2..] == ToHex(bs[1..]);
      FromHexToHex(bs[1..]);
      var b := bs[0] as int;
      assert b == (b / 16) * 16 + b % 16;
    }
  }

  /** Different bytes have different hexadecimal text. */
  lemma ToHexInjective(a: seq<byte>, b: seq<byte>)
    requires ToHex(a) == ToHex(b)
    ensures a == b
  {
    FromHexToHex(a);
    FromHexToHex(b);
  }
}
