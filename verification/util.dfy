/** The helpers of the bot's util module that the statistics code calls:
    C-string extraction from a byte array, little-endian decoding of a
    4-byte integer, decimal parsing and ASCII lower-casing. The helper
    source itself is not part of this model; each helper is given the
    behaviour stated in its doc comment. */
module Util {
  import opened Base

  // ---------------------------------------------------------------------
  // UTIL_ExtractCString
  // ---------------------------------------------------------------------

  /** No byte of `s` is a NUL terminator. */
  predicate NulFree(s: Bytes) {
    forall k :: 0 <= k < |s| ==> s[k] != 0
  }

  /** `UTIL_ExtractCString(b, start)`: the bytes from `start` up to, not
      including, the first NUL, or up to the end of `b` when there is none;
      empty when `start` is at or past the end. ExtractCStringIsLongestRun
      states this. */
  function ExtractCString(b: Bytes, start: nat): (r: Bytes)
    ensures start >= |b| ==> r == []
    ensures start <= |b| ==> start + |r| <= |b|
    decreases |b| - start
  {
    if start >= |b| || b[start] == 0 then []
    else [b[start]] + ExtractCString(b, start + 1)
  }

  /** The extracted C string is the longest NUL-free run of bytes starting
      at `start`: it is a slice of `b`, holds no NUL, and is followed by a
      NUL or by the end of the buffer. */
  lemma {:induction false} ExtractCStringIsLongestRun(b: Bytes, start: nat)
    requires start <= |b|
    ensures var r := ExtractCString(b, start);
      && r == b[start..start + |r|]
      && NulFree(r)
      && (start + |r| == |b| || b[start + |r|] == 0)
    decreases |b| - start
  {
    if start < |b| && b[start] != 0 {
      ExtractCStringIsLongestRun(b, start + 1);
    }
  }

  /** The C string only looks forward: bytes before `start` are irrelevant. */
  lemma {:induction false} ExtractCStringShift(p: Bytes, q: Bytes, j: nat)
    ensures ExtractCString(p + q, |p| + j) == ExtractCString(q, j)
    decreases |q| - j
  {
    if j < |q| && q[j] != 0 {
      assert (p + q)[|p| + j] == q[j];
      ExtractCStringShift(p, q, j + 1);
    }
  }

  /** A NUL-terminated string is read back exactly by ExtractCString. */
  lemma {:induction false} ExtractCStringOfTerminated(s: Bytes, rest: Bytes)
    requires NulFree(s)
    ensures ExtractCString(s + [0] + rest, 0) == s
  {
    if |s| == 0 {
      assert (s + [0] + rest)[0] == 0;
    } else {
      var q := s[1..] + [0] + rest;
      assert s + [0] + rest == [s[0]] + q;
      ExtractCStringOfTerminated(s[1..], rest);
      ExtractCStringShift([s[0]], q, 0);
    }
  }

  // ---------------------------------------------------------------------
  // UTIL_ByteArrayToUInt32 (little-endian) and its inverse
  // ---------------------------------------------------------------------

  /** `UTIL_ByteArrayToUInt32(b, false)`: the first four bytes read as a
      little-endian unsigned integer, b0 + 2^8 b1 + 2^16 b2 + 2^24 b3;
      0 when fewer than four bytes are given. */
  function ByteArrayToUInt32(b: Bytes): u32 {
    if |b| < 4 then 0
    else b[0] as int + 0x100 * b[1] as int + 0x1_0000 * b[2] as int + 0x100_0000 * b[3] as int
  }

  /** `UTIL_CreateByteArray(v, false)`: the four little-endian bytes of v. */
  function UInt32ToByteArray(v: u32): (b: Bytes)
    ensures |b| == 4
  {
    [v % 0x100, (v / 0x100) % 0x100, (v / 0x1_0000) % 0x100, v / 0x100_0000]
  }

  /** Splitting off the low byte of x = lo + 256 hi. */
  lemma LowByte(x: int, lo: int, hi: int)
    requires 0 <= lo < 0x100 && 0 <= hi && x == lo + 0x100 * hi
    ensures x % 0x100 == lo && x / 0x100 == hi
  {
  }

  /** Dividing by 2^8 and then by 2^8 or 2^16 is dividing by their
      product. */
  lemma ShiftTwice(x: nat)
    ensures x / 0x100 / 0x100 == x / 0x1_0000
    ensures x / 0x1_0000 / 0x100 == x / 0x100_0000
  {
  }

  /** Encoding then decoding a value gives the value back. */
  lemma DecodeEncodeUInt32(v: u32)
    ensures ByteArrayToUInt32(UInt32ToByteArray(v)) == v
  {
    ShiftTwice(v);
    var q1 := v / 0x100;
    var q2 := v / 0x1_0000;
    var q3 := v / 0x100_0000;
    assert v == v % 0x100 + 0x100 * q1;
    assert q1 == q1 % 0x100 + 0x100 * q2;
    assert q2 == q2 % 0x100 + 0x100 * q3;
  }

  /** Decoding four bytes then encoding the value gives the bytes back. */
  lemma EncodeDecodeUInt32(b: Bytes)
    requires |b| == 4
    ensures UInt32ToByteArray(ByteArrayToUInt32(b)) == b
  {
    var v := ByteArrayToUInt32(b);
    var h1 := b[1] as int + 0x100 * b[2] as int + 0x1_0000 * b[3] as int;
    var h2 := b[2] as int + 0x100 * b[3] as int;
    LowByte(v, b[0], h1);
    LowByte(h1, b[1], h2);
    LowByte(h2, b[2], b[3]);
    assert v / 0x1_0000 == h2;
    assert v / 0x100_0000 == b[3];
  }

  // ---------------------------------------------------------------------
  // UTIL_ToUInt32 (decimal parse) and UTIL_ToString (decimal rendering)
  // ---------------------------------------------------------------------

  predicate IsDigit(c: char) {
    '0' <= c <= '9'
  }

  predicate AllDigits(s: string) {
    forall k :: 0 <= k < |s| ==> IsDigit(s[k])
  }

  /** The longest prefix of `s` made of decimal digits. */
  function DigitRun(s: string): (r: string)
    ensures |r| <= |s| && r == s[..|r|]
    ensures AllDigits(r)
    ensures |r| == |s| || !IsDigit(s[|r|])
  {
    if |s| == 0 || !IsDigit(s[0]) then ""
    else [s[0]] + DigitRun(s[1..])
  }

  /** A string of digits is its own leading digit run. */
  lemma {:induction false} DigitRunOfDigits(s: string)
    requires AllDigits(s)
    ensures DigitRun(s) == s
  {
    if |s| > 0 {
      DigitRunOfDigits(s[1..]);
    }
  }

  /** The number written by a string of decimal digits. */
  function DecimalValue(d: string): nat
    requires AllDigits(d)
  {
    if |d| == 0 then 0
    else 10 * DecimalValue(d[..|d| - 1]) + (d[|d| - 1] as int - '0' as int)
  }

  /** `UTIL_ToUInt32(s)`: the number written by the leading decimal digits
      of `s`; 0 when `s` does not start with a digit and 2^32 - 1 when the
      number does not fit in 32 bits. */
  function ToUInt32(s: string): (r: u32)
    ensures AllDigits(s) && DecimalValue(s) < U32_LIMIT ==> r == DecimalValue(s)
    ensures |s| == 0 || !IsDigit(s[0]) ==> r == 0
  {
    var d := DigitRun(s);
    assert AllDigits(s) ==> d == s by { if AllDigits(s) { DigitRunOfDigits(s); } }
    var v := DecimalValue(d);
    if v < U32_LIMIT then v else U32_LIMIT - 1
  }

  function DigitChar(n: nat): (c: char)
    requires n < 10
    ensures IsDigit(c)
  {
    ('0' as int + n) as char
  }

  /** `UTIL_ToString(n)`: the canonical decimal rendering of n. */
  function Decimal(n: nat): (s: string)
    ensures |s| > 0 && AllDigits(s)
  {
    if n < 10 then [DigitChar(n)]
    else Decimal(n / 10) + [DigitChar(n % 10)]
  }

  /** Rendering a number in decimal and parsing it back gives the number. */
  lemma {:induction false} DecimalValueOfDecimal(n: nat)
    ensures DecimalValue(Decimal(n)) == n
  {
    if n >= 10 {
      var s := Decimal(n);
      assert s[..|s| - 1] == Decimal(n / 10);
      DecimalValueOfDecimal(n / 10);
    }
  }

  /** UTIL_ToUInt32 inverts UTIL_ToString on every 32-bit value. */
  lemma ToUInt32OfDecimal(n: u32)
    ensures ToUInt32(Decimal(n)) == n
  {
    DecimalValueOfDecimal(n);
  }

  // ---------------------------------------------------------------------
  // tolower and std::string(bytes)
  // ---------------------------------------------------------------------

  /** `tolower` in the C locale: only 'A'..'Z' change. */
  function ToLower(c: char): (r: char)
    ensures 'A' <= c <= 'Z' ==> r as int == c as int + 32
    ensures !('A' <= c <= 'Z') ==> r == c
  {
    if 'A' <= c <= 'Z' then (c as int + 32) as char else c
  }

  /** `transform(s.begin(), s.end(), s.begin(), tolower)`. */
  function Lower(s: string): (r: string)
    ensures |r| == |s|
    ensures forall k :: 0 <= k < |s| ==> r[k] == ToLower(s[k])
  {
    seq(|s|, k requires 0 <= k < |s| => ToLower(s[k]))
  }

  /** Lower-casing twice is lower-casing once. */
  lemma LowerIdempotent(s: string)
    ensures Lower(Lower(s)) == Lower(s)
  {
  }

  /** `string(b.begin(), b.end())`: each byte becomes the character with
      the same code. */
  function AsString(b: Bytes): (r: string)
    ensures |r| == |b|
    ensures forall k :: 0 <= k < |b| ==> r[k] as int == b[k]
  {
    seq(|b|, k requires 0 <= k < |b| => b[k] as char)
  }

  /** The characters of a string whose codes are all below 256, as bytes. */
  function AsBytes(s: string): (b: Bytes)
    requires forall k :: 0 <= k < |s| ==> s[k] as int < 256
    ensures AsString(b) == s
  {
    seq(|s|, k requires 0 <= k < |s| => s[k] as int)
  }

  /** The bytes of `b` in reverse order. */
  function Reverse(b: Bytes): (r: Bytes)
    ensures |r| == |b|
    ensures forall k :: 0 <= k < |b| ==> r[k] == b[|b| - 1 - k]
  {
    seq(|b|, k requires 0 <= k < |b| => b[|b| - 1 - k])
  }

  lemma ReverseInvolution(b: Bytes)
    ensures Reverse(Reverse(b)) == b
  {
  }
}
