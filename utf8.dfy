/**
 * Well-formed UTF-8, as Python's strict "utf-8" decoder accepts it: the
 * byte sequences of Table 3-7 of the Unicode Standard (no overlong forms,
 * no surrogates, nothing above U+10FFFF). bytes.decode("utf-8") raises
 * UnicodeDecodeError on anything else.
 */
module Utf8 {
  import opened Bytes

  predicate IsContinuation(b: Byte) {
    0x80 <= b <= 0xBF
  }

  /** The range the second byte of a sequence must lie in, given its lead byte. */
  function SecondLow(lead: Byte): Byte {
    if lead == 0xE0 then 0xA0 else if lead == 0xF0 then 0x90 else 0x80
  }

  function SecondHigh(lead: Byte): Byte {
    if lead == 0xED then 0x9F else if lead == 0xF4 then 0x8F else 0xBF
  }

  /**
   * The length of the well-formed sequence s starts with, or 0 when s does
   * not start with one.
   */
  function LeadLength(s: seq<Byte>): (n: nat)
    ensures n <= 4 && n <= |s|
    ensures n > 0 ==> !IsContinuation(s[0])
  {
    if |s| == 0 then 0
    else
      var b := s[0];
      if b <= 0x7F then 1
      else if 0xC2 <= b <= 0xDF then
        if |s| >= 2 && IsContinuation(s[1]) then 2 else 0
      else if 0xE0 <= b <= 0xEF then
        if |s| >= 3 && SecondLow(b) <= s[1] <= SecondHigh(b) && IsContinuation(s[2]) then 3 else 0
      else if 0xF0 <= b <= 0xF4 then
        if |s| >= 4 && SecondLow(b) <= s[1] <= SecondHigh(b) && IsContinuation(s[2]) && IsContinuation(s[3]) then 4 else 0
      else 0
  }

  /** s is a whole number of well-formed sequences. */
  predicate IsUtf8(s: seq<Byte>)
    decreases |s|
  {
    s == [] || (LeadLength(s) > 0 && IsUtf8(s[LeadLength(s)..]))
  }

  /** The UTF-8 encoding of a Unicode scalar value. */
  function Encode(cp: nat): (s: seq<Byte>)
    requires cp < 0x11_0000 && !(0xD800 <= cp <= 0xDFFF)
    ensures 1 <= |s| <= 4
    ensures |s| == 1 <==> cp < 0x80
    ensures |s| == 2 <==> 0x80 <= cp < 0x800
    ensures |s| == 4 <==> cp >= 0x1_0000
  {
    if cp < 0x80 then [cp]
    else if cp < 0x800 then [0xC0 + cp / 0x40, 0x80 + cp % 0x40]
    else if cp < 0x1_0000 then [0xE0 + cp / 0x1000, 0x80 + cp / 0x40 % 0x40, 0x80 + cp % 0x40]
    else [0xF0 + cp / 0x4_0000, 0x80 + cp / 0x1000 % 0x40, 0x80 + cp / 0x40 % 0x40, 0x80 + cp % 0x40]
  }

  /** The encoding of every scalar value is one well-formed sequence. */
  lemma EncodeIsUtf8(cp: nat)
    requires cp < 0x11_0000 && !(0xD800 <= cp <= 0xDFFF)
    ensures LeadLength(Encode(cp)) == |Encode(cp)|
    ensures IsUtf8(Encode(cp))
  {
    if 0x800 <= cp < 0x1_0000 {
      ThreeByteEncoding(cp);
    } else if cp >= 0x1_0000 {
      FourByteEncoding(cp);
    }
    var s := Encode(cp);
    assert s[|s|..] == [];
  }

  lemma ThreeByteEncoding(cp: nat)
    requires 0x800 <= cp < 0x1_0000 && !(0xD800 <= cp <= 0xDFFF)
    ensures LeadLength(Encode(cp)) == 3
  {
    var lead, second := 0xE0 + cp / 0x1000, 0x80 + cp / 0x40 % 0x40;
    assert SecondLow(lead) <= second <= SecondHigh(lead);
  }

  lemma FourByteEncoding(cp: nat)
    requires 0x1_0000 <= cp < 0x11_0000
    ensures LeadLength(Encode(cp)) == 4
  {
    var lead, second := 0xF0 + cp / 0x4_0000, 0x80 + cp / 0x1000 % 0x40;
    assert SecondLow(lead) <= second <= SecondHigh(lead);
  }

  /** The code point a well-formed sequence stands for: its payload bits, lead byte first. */
  function Decode(s: seq<Byte>): (cp: nat)
    requires LeadLength(s) == |s| > 0
    ensures cp < 0x11_0000 && !(0xD800 <= cp <= 0xDFFF)
  {
    var n := |s|;
    if n == 1 then s[0]
    else if n == 2 then (s[0] as int - 0xC0) * 0x40 + Payload(s[1])
    else if n == 3 then (s[0] as int - 0xE0) * 0x1000 + Payload(s[1]) * 0x40 + Payload(s[2])
    else (s[0] as int - 0xF0) * 0x4_0000 + Payload(s[1]) * 0x1000 + Payload(s[2]) * 0x40 + Payload(s[3])
  }

  /** The six low bits of a byte after the lead byte. */
  function Payload(b: Byte): int {
    b as int - 0x80
  }

  /**
   * Every sequence LeadLength accepts is the encoding of the scalar value it
   * decodes to: no overlong form, no surrogate, nothing above U+10FFFF.
   */
  lemma DecodeEncodes(s: seq<Byte>)
    requires LeadLength(s) == |s| > 0
    ensures Encode(Decode(s)) == s
  {
    if |s| == 3 {
      ThreeByteDecodes(s);
    } else if |s| == 4 {
      FourByteDecodes(s);
    }
  }

  lemma ThreeByteDecodes(s: seq<Byte>)
    requires LeadLength(s) == |s| == 3
    ensures Encode(Decode(s)) == s
  {
    ThreeDigits(s[0] - 0xE0, Payload(s[1]), Payload(s[2]));
  }

  /** The base-64 digits of a three-byte code point are its payloads. */
  lemma ThreeDigits(a: int, b: int, c: int)
    requires 0 <= a < 0x10 && 0 <= b < 0x40 && 0 <= c < 0x40
    ensures var cp := a * 0x1000 + b * 0x40 + c;
      cp / 0x1000 == a && cp / 0x40 % 0x40 == b && cp % 0x40 == c
  {
    var cp := a * 0x1000 + b * 0x40 + c;
    assert cp == (a * 0x40 + b) * 0x40 + c;
  }

  lemma FourByteDecodes(s: seq<Byte>)
    requires LeadLength(s) == |s| == 4
    ensures Encode(Decode(s)) == s
  {
    FourDigits(s[0] - 0xF0, Payload(s[1]), Payload(s[2]), Payload(s[3]));
  }

  /** The base-64 digits of a four-byte code point are its payloads. */
  lemma FourDigits(a: int, b: int, c: int, d: int)
    requires 0 <= a < 8 && 0 <= b < 0x40 && 0 <= c < 0x40 && 0 <= d < 0x40
    ensures var cp := a * 0x4_0000 + b * 0x1000 + c * 0x40 + d;
      cp / 0x4_0000 == a && cp / 0x1000 % 0x40 == b && cp / 0x40 % 0x40 == c && cp % 0x40 == d
  {
    var cp := a * 0x4_0000 + b * 0x1000 + c * 0x40 + d;
    assert cp == (a * 0x40 + b) * 0x1000 + (c * 0x40 + d);
    assert cp == ((a * 0x40 + b) * 0x40 + c) * 0x40 + d;
  }

  /** Decoding inverts encoding. */
  lemma EncodeDecodes(cp: nat)
    requires cp < 0x11_0000 && !(0xD800 <= cp <= 0xDFFF)
    ensures LeadLength(Encode(cp)) == |Encode(cp)|
    ensures Decode(Encode(cp)) == cp
  {
    EncodeIsUtf8(cp);
    if 0x800 <= cp < 0x1_0000 {
      ThreeByteRoundTrip(cp);
    } else if cp >= 0x1_0000 {
      FourByteRoundTrip(cp);
    }
  }

  lemma ThreeByteRoundTrip(cp: nat)
    requires 0x800 <= cp < 0x1_0000 && !(0xD800 <= cp <= 0xDFFF)
    ensures LeadLength(Encode(cp)) == 3
    ensures Decode(Encode(cp)) == cp
  {
    ThreeByteEncoding(cp);
    assert cp / 0x40 == cp / 0x1000 * 0x40 + cp / 0x40 % 0x40;
  }

  lemma FourByteRoundTrip(cp: nat)
    requires 0x1_0000 <= cp < 0x11_0000
    ensures LeadLength(Encode(cp)) == 4
    ensures Decode(Encode(cp)) == cp
  {
    FourByteEncoding(cp);
    assert cp / 0x1000 == cp / 0x4_0000 * 0x40 + cp / 0x1000 % 0x40;
    assert cp / 0x40 == cp / 0x1000 * 0x40 + cp / 0x40 % 0x40;
  }

  /** LeadLength looks only at the bytes of the sequence it finds. */
  lemma LeadLengthOwnBytes(s: seq<Byte>)
    requires LeadLength(s) > 0
    ensures LeadLength(s[..LeadLength(s)]) == LeadLength(s)
  {
  }

  /** A well-formed sequence is still found when more text follows it. */
  lemma LeadLengthExtends(s: seq<Byte>, t: seq<Byte>)
    requires LeadLength(s) == |s| > 0
    ensures LeadLength(s + t) == |s|
  {
    assert (s + t)[..|s|] == s;
  }

  /** Text made of ASCII bytes only, such as a space-padded volume label, is well-formed. */
  lemma {:induction false} AsciiIsUtf8(s: seq<Byte>)
    requires forall i :: 0 <= i < |s| ==> s[i] < 0x80
    ensures IsUtf8(s)
  {
    if s != [] {
      AsciiIsUtf8(s[1..]);
    }
  }

  /** Text that starts with a continuation byte is not well-formed. */
  lemma ContinuationFirstIsNotUtf8(s: seq<Byte>)
    requires |s| > 0 && IsContinuation(s[0])
    ensures !IsUtf8(s)
  {
  }

  /**
   * A volume label written in CP949, such as the Hangul syllable GA (B0 A1),
   * is not well-formed UTF-8.
   */
  lemma Cp949HangulIsNotUtf8(rest: seq<Byte>)
    ensures !IsUtf8([0xB0, 0xA1] + rest)
  {
    ContinuationFirstIsNotUtf8([0xB0, 0xA1] + rest);
  }
}
