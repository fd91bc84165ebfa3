/**
 * Byte and number encodings the core borrows from libraries: hexadecimal
 * text to bytes (`Buffer.from(s, 'hex')`), bytes to hexadecimal, a string of
 * hexadecimal digits read as an unsigned integer (`bigInt(s, 16)`), and an
 * integer written in decimal (`.toString()`).
 */
module Numerals {

  newtype byte = b: int | 0 <= b < 256

  predicate IsHexDigit(c: char)
  {
    '0' <= c <= '9' || 'a' <= c <= 'f' || 'A' <= c <= 'F'
  }

  predicate IsLowerHexDigit(c: char)
  {
    '0' <= c <= '9' || 'a' <= c <= 'f'
  }

  /** Every character is one of `0-9a-f`. */
  predicate IsLowerHex(s: string)
  {
    forall k :: 0 <= k < |s| ==> IsLowerHexDigit(s[k])
  }

  function HexDigitValue(c: char): (v: nat)
    requires IsHexDigit(c)
    ensures v < 16
  {
    if '0' <= c <= '9' then c as int - '0' as int
    else if 'a' <= c <= 'f' then c as int - 'a' as int + 10
    else c as int - 'A' as int + 10
  }

  /** The lower-case digit of a value below 16. */
  function HexDigit(v: nat): (c: char)
    requires v < 16
    ensures IsLowerHexDigit(c) && HexDigitValue(c) == v
  {
    if v < 10 then ('0' as int + v) as char else ('a' as int + v - 10) as char
  }

  /**
   * `Buffer.from(s, 'hex')`: one byte per pair of hex digits, stopping at the
   * first pair that is not two hex digits.
   */
  function HexBytes(s: string): (bytes: seq<byte>)
    ensures |bytes| <= |s| / 2
  {
    if |s| < 2 || !IsHexDigit(s[0]) || !IsHexDigit(s[1]) then []
    else [(HexDigitValue(s[0]) * 16 + HexDigitValue(s[1])) as byte] + HexBytes(s[2..])
  }

  /** Lower-case hexadecimal text of a byte string, two digits per byte. */
  function ToHex(bytes: seq<byte>): (s: string)
    ensures |s| == 2 * |bytes| && IsLowerHex(s)
  {
    if bytes == [] then ""
    else [HexDigit(bytes[0] as nat / 16), HexDigit(bytes[0] as nat % 16)] + ToHex(bytes[1..])
  }

  /** Decoding the hex text of bytes gives the bytes back. */
  lemma {:induction false} HexBytesOfToHex(bytes: seq<byte>)
    ensures HexBytes(ToHex(bytes)) == bytes
  {
    if bytes != [] {
      var s := ToHex(bytes);
      assert s[2..] == ToHex(bytes[1..]);
      HexBytesOfToHex(bytes[1..]);
    }
  }

  /** Lower-case hex text of even length decodes to exactly half as many bytes, which encode back to it. */
  lemma {:induction false} ToHexOfHexBytes(s: string)
    requires IsLowerHex(s) && |s| % 2 == 0
    ensures |HexBytes(s)| == |s| / 2
    ensures ToHex(HexBytes(s)) == s
  {
    if |s| > 0 {
      assert IsLowerHex(s[2..]);
      ToHexOfHexBytes(s[2..]);
      var b := HexBytes(s);
      assert b[1..] == HexBytes(s[2..]);
      assert HexDigit(b[0] as nat / 16) == s[0];
      assert HexDigit(b[0] as nat % 16) == s[1];
    }
  }

  function Pow(base: nat, e: nat): (p: nat)
    requires base > 0
    ensures p >= 1
  {
    if e == 0 then 1 else base * Pow(base, e - 1)
  }

  /** `bigInt(s, 16)`: the unsigned value of a string of hex digits, most significant first. */
  function HexValue(s: string): (n: nat)
    requires IsLowerHex(s)
    ensures n < Pow(16, |s|)
  {
    if s == [] then 0
    else
      assert IsLowerHex(s[..|s| - 1]);
      HexValue(s[..|s| - 1]) * 16 + HexDigitValue(s[|s| - 1])
  }

  predicate IsDecimalDigit(c: char)
  {
    '0' <= c <= '9'
  }

  predicate IsDecimal(s: string)
  {
    forall k :: 0 <= k < |s| ==> IsDecimalDigit(s[k])
  }

  /** Decimal text as produced by a big-integer formatter: digits, no leading zero. */
  predicate IsCanonicalDecimal(s: string)
  {
    |s| >= 1 && IsDecimal(s) && (s[0] == '0' ==> s == "0")
  }

  /** The value of a string of decimal digits. */
  function DecimalValue(s: string): nat
    requires IsDecimal(s)
  {
    if s == [] then 0
    else
      assert IsDecimal(s[..|s| - 1]);
      DecimalValue(s[..|s| - 1]) * 10 + (s[|s| - 1] as int - '0' as int)
  }

  function DecimalDigit(v: nat): (c: char)
    requires v < 10
    ensures IsDecimalDigit(c) && c as int - '0' as int == v
  {
    ('0' as int + v) as char
  }

  /** `bigInt(n).toString()`: the decimal text of `n`. */
  function DecimalString(n: nat): (s: string)
    ensures IsCanonicalDecimal(s)
    ensures s[0] == '0' <==> n == 0
  {
    if n < 10 then [DecimalDigit(n)]
    else DecimalString(n / 10) + [DecimalDigit(n % 10)]
  }

  /** Reading the decimal text of `n` gives `n` back. */
  lemma {:induction false} DecimalStringValue(n: nat)
    ensures DecimalValue(DecimalString(n)) == n
  {
    var s := DecimalString(n);
    if n < 10 {
      assert s[..|s| - 1] == [];
    } else {
      assert s[..|s| - 1] == DecimalString(n / 10);
      DecimalStringValue(n / 10);
    }
  }

  /** Two numbers with the same decimal text are equal. */
  lemma DecimalStringInjective(m: nat, n: nat)
    requires DecimalString(m) == DecimalString(n)
    ensures m == n
  {
    DecimalStringValue(m);
    DecimalStringValue(n);
  }
}
