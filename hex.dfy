/**
 * Lower-case hexadecimal rendering of a byte string: each byte becomes the two
 * digits `format!("{:02x}", b)` prints for it, and the pieces are joined
 * without a separator. `FromHex` is its inverse; the round trip through it is
 * what makes the rendering injective.
 */
module Hex {
  import opened Wrappers

  type byte = b: int | 0 <= b < 256

  /** The sixteen characters `0`-`9`, `a`-`f`. */
  predicate IsHexDigit(c: char) {
    '0' <= c <= '9' || 'a' <= c <= 'f'
  }

  /** The digit that stands for the nibble `n`. */
  function DigitChar(n: int): (c: char)
    requires 0 <= n < 16
    ensures IsHexDigit(c)
    ensures DigitValue(c) == n
  {
    if n < 10 then ('0' as int + n) as char else ('a' as int + (n - 10)) as char
  }

  /** The nibble a digit stands for. */
  function DigitValue(c: char): (n: int)
    requires IsHexDigit(c)
    ensures 0 <= n < 16
  {
    if c <= '9' then c as int - '0' as int else c as int - 'a' as int + 10
  }

  lemma DigitCharOfValue(c: char)
    requires IsHexDigit(c)
    ensures DigitChar(DigitValue(c)) == c
  {
  }

  /** `format!("{:02x}", b)`: two digits, the high nibble first, zero-padded. */
  function ByteHex(b: byte): (s: string)
    ensures |s| == 2 && IsHexDigit(s[0]) && IsHexDigit(s[1])
    ensures 16 * DigitValue(s[0]) + DigitValue(s[1]) == b
  {
    [DigitChar(b / 16), DigitChar(b % 16)]
  }

  /** The per-byte renderings, joined with "". */
  function ToHex(bs: seq<byte>): (s: string)
    ensures |s| == 2 * |bs|
    ensures forall i | 0 <= i < |s| :: IsHexDigit(s[i])
  {
    if bs == [] then "" else ByteHex(bs[0]) + ToHex(bs[1..])
  }

  /** Parses pairs of lower-case hex digits back into bytes. */
  function FromHex(s: string): (r: Option<seq<byte>>)
    ensures r.Some? ==> |s| == 2 * |r.value|
    decreases |s|
  {
    if s == [] then Some([])
    else if |s| < 2 || !IsHexDigit(s[0]) || !IsHexDigit(s[1]) then None
    else
      match FromHex(s[2..])
      case None => None
      case Some(rest) => Some([16 * DigitValue(s[0]) + DigitValue(s[1])] + rest)
  }

  /** Byte `i` of the input is rendered at positions `2i` and `2i+1`. */
  lemma {:induction false} ToHexAt(bs: seq<byte>, i: nat)
    requires i < |bs|
    ensures ToHex(bs)[2 * i..2 * i + 2] == ByteHex(bs[i])
  {
    if i > 0 {
      ToHexAt(bs[1..], i - 1);
      assert ToHex(bs)[2 * i..2 * i + 2] == ToHex(bs[1..])[2 * (i - 1)..2 * (i - 1) + 2];
    }
  }

  lemma {:induction false} FromToHex(bs: seq<byte>)
    ensures FromHex(ToHex(bs)) == Some(bs)
  {
    if bs != [] {
      var s := ToHex(bs);
      assert s[2..] == ToHex(bs[1..]);
      FromToHex(bs[1..]);
      assert s[..2] == ByteHex(bs[0]);
      assert bs == [bs[0]] + bs[1..];
    }
  }

  lemma {:induction false} ToFromHex(s: string, bs: seq<byte>)
    requires FromHex(s) == Some(bs)
    ensures ToHex(bs) == s
    decreases |s|
  {
    if s != [] {
      var rest := FromHex(s[2..]).value;
      ToFromHex(s[2..], rest);
      var b := 16 * DigitValue(s[0]) + DigitValue(s[1]);
      assert bs == [b] + rest;
      assert b / 16 == DigitValue(s[0]) && b % 16 == DigitValue(s[1]);
      DigitCharOfValue(s[0]);
      DigitCharOfValue(s[1]);
      assert ByteHex(b) == s[..2];
      assert s == s[..2] + s[2..];
    }
  }

  /** Distinct byte strings have distinct renderings. */
  lemma ToHexInjective(a: seq<byte>, b: seq<byte>)
    ensures ToHex(a) == ToHex(b) <==> a == b
  {
    FromToHex(a);
    FromToHex(b);
  }
}
