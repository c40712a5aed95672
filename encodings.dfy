/**
 * The byte encodings the audio cache depends on: UTF-8 (Python's
 * `str.encode('utf-8')`), the lower-case hexadecimal form of a digest
 * (`hexdigest()`) and base64 (`base64.b64encode`, RFC 4648 section 4).
 * MD5 itself is not defined here: the cache receives it as a function.
 */
module Encodings {

  type Byte = x: int | 0 <= x < 256

  /** A continuation byte `10xxxxxx` carrying the low six bits of `n`. */
  function Cont(n: nat): Byte {
    0x80 + n % 64
  }

  /** The UTF-8 form of one Unicode scalar value (RFC 3629 section 3). */
  function EncodeChar(c: char): seq<Byte> {
    var n := c as int;
    if n < 0x80 then [n]
    else if n < 0x800 then [0xC0 + n / 64, Cont(n)]
    else if n < 0x10000 then [0xE0 + (n / 64) / 64, Cont(n / 64), Cont(n)]
    else [0xF0 + ((n / 64) / 64) / 64, Cont((n / 64) / 64), Cont(n / 64), Cont(n)]
  }

  /** How many bytes a sequence starting with lead byte `b` occupies. */
  function LeadLength(b: Byte): nat {
    if b < 0x80 then 1 else if b < 0xE0 then 2 else if b < 0xF0 then 3 else 4
  }

  /** The scalar value a well-formed one-to-four byte sequence stands for. */
  function DecodeValue(r: seq<Byte>): int
    requires 1 <= |r| <= 4
  {
    var b: seq<int> := r;
    if |b| == 1 then b[0]
    else if |b| == 2 then (b[0] - 0xC0) * 64 + (b[1] - 0x80)
    else if |b| == 3 then ((b[0] - 0xE0) * 64 + (b[1] - 0x80)) * 64 + (b[2] - 0x80)
    else (((b[0] - 0xF0) * 64 + (b[1] - 0x80)) * 64 + (b[2] - 0x80)) * 64 + (b[3] - 0x80)
  }

  /** `s.encode('utf-8')`. */
  function Utf8(s: string): seq<Byte> {
    if s == [] then [] else EncodeChar(s[0]) + Utf8(s[1..])
  }

  /** The lead byte gives the length of a character's encoding, and the bytes decode back to it. */
  lemma EncodeCharDecodes(c: char)
    ensures 1 <= |EncodeChar(c)| <= 4
    ensures |EncodeChar(c)| == LeadLength(EncodeChar(c)[0])
    ensures DecodeValue(EncodeChar(c)) == c as int
  {
  }

  /** No character's encoding is a proper prefix of another's: the first byte fixes the length. */
  lemma EncodeCharPrefixFree(c1: char, r1: seq<Byte>, c2: char, r2: seq<Byte>)
    requires EncodeChar(c1) + r1 == EncodeChar(c2) + r2
    ensures c1 == c2 && r1 == r2
  {
    var e1, e2 := EncodeChar(c1), EncodeChar(c2);
    EncodeCharDecodes(c1);
    EncodeCharDecodes(c2);
    assert e1[0] == (e1 + r1)[0] == e2[0];
    assert |e1| == |e2|;
    assert e1 == (e1 + r1)[..|e1|] == (e2 + r2)[..|e2|] == e2;
    assert c1 as int == c2 as int;
    assert r1 == (e1 + r1)[|e1|..] == (e2 + r2)[|e2|..] == r2;
  }

  /** Different texts have different UTF-8 encodings. */
  lemma {:induction false} Utf8Injective(s: string, t: string)
    requires Utf8(s) == Utf8(t)
    ensures s == t
  {
    if s != [] && t != [] {
      EncodeCharPrefixFree(s[0], Utf8(s[1..]), t[0], Utf8(t[1..]));
      Utf8Injective(s[1..], t[1..]);
      assert s == [s[0]] + s[1..];
      assert t == [t[0]] + t[1..];
    }
  }

  /** The lower-case hexadecimal digit of a nibble. */
  function HexDigit(v: nat): (c: char)
    requires v < 16
    ensures HexValue(c) == v
  {
    if v < 10 then ('0' as int + v) as char else ('a' as int + v - 10) as char
  }

  function HexValue(c: char): int {
    if '0' <= c <= '9' then c as int - '0' as int else c as int - 'a' as int + 10
  }

  /** `hexdigest()`: two lower-case hexadecimal digits per byte, high nibble first. */
  function Hex(b: seq<Byte>): (r: string)
    ensures |r| == 2 * |b|
    ensures forall i :: 0 <= i < |r| ==> '0' <= r[i] <= '9' || 'a' <= r[i] <= 'f'
  {
    if b == [] then [] else [HexDigit(b[0] / 16), HexDigit(b[0] % 16)] + Hex(b[1..])
  }

  /** The hexadecimal form determines the bytes. */
  lemma {:induction false} HexInjective(a: seq<Byte>, b: seq<Byte>)
    requires Hex(a) == Hex(b)
    ensures a == b
  {
    if a != [] && b != [] {
      var ha, hb := Hex(a), Hex(b);
      assert a[0] / 16 == HexValue(ha[0]) == HexValue(hb[0]) == b[0] / 16;
      assert a[0] % 16 == HexValue(ha[1]) == HexValue(hb[1]) == b[0] % 16;
      assert Hex(a[1..]) == ha[2..] == hb[2..] == Hex(b[1..]);
      HexInjective(a[1..], b[1..]);
      assert a == [a[0]] + a[1..];
      assert b == [b[0]] + b[1..];
    }
  }

  /** The base64 digit of a six-bit value: `A`-`Z`, `a`-`z`, `0`-`9`, `+`, `/`. */
  function Base64Digit(v: nat): char
    requires v < 64
  {
    if v < 26 then ('A' as int + v) as char
    else if v < 52 then ('a' as int + v - 26) as char
    else if v < 62 then ('0' as int + v - 52) as char
    else if v == 62 then '+' else '/'
  }

  /** The four characters of a complete three-byte group. */
  function Base64Group(b0: Byte, b1: Byte, b2: Byte): (r: string)
    ensures |r| == 4
  {
    [Base64Digit(b0 / 4), Base64Digit((b0 % 4) * 16 + b1 / 16),
     Base64Digit((b1 % 16) * 4 + b2 / 64), Base64Digit(b2 % 64)]
  }

  /**
   * `base64.b64encode(b).decode('utf-8')`: every three bytes become four
   * characters, a final group of one or two bytes is padded with `=`.
   * In particular the encoding is empty exactly when the bytes are, which makes
   * an empty cache file read back as the falsy string `''`.
   */
  function Base64(b: seq<Byte>): (r: string)
    ensures r == [] <==> b == []
    decreases |b|
  {
    if |b| == 0 then []
    else if |b| == 1 then
      [Base64Digit(b[0] / 4), Base64Digit((b[0] % 4) * 16), '=', '=']
    else if |b| == 2 then
      [Base64Digit(b[0] / 4), Base64Digit((b[0] % 4) * 16 + b[1] / 16), Base64Digit((b[1] % 16) * 4), '=']
    else
      Base64Group(b[0], b[1], b[2]) + Base64(b[3..])
  }

  /** Four characters for every started group of three bytes. */
  lemma {:induction false} Base64Length(b: seq<Byte>)
    ensures |Base64(b)| == 4 * ((|b| + 2) / 3)
    decreases |b|
  {
    if |b| > 2 {
      Base64Length(b[3..]);
      assert (|b| + 2) / 3 == (|b[3..]| + 2) / 3 + 1;
    }
  }
}
