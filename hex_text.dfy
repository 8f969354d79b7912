/**
 * The text Python's built-in hex() produces for a non-negative integer:
 * "0x" followed by the lowercase hexadecimal digits of the number, without
 * leading zeros ("0x0" for zero). The signature tables of the carver are
 * keyed by this text, so matching a key means matching this exact string.
 */
module HexText {

  const Digits: string := "0123456789abcdef"

  predicate IsHexDigit(c: char) {
    '0' <= c <= '9' || 'a' <= c <= 'f'
  }

  function Digit(d: nat): char
    requires d < 16
  {
    Digits[d]
  }

  function DigitValue(c: char): (d: nat)
    requires IsHexDigit(c)
    ensures d < 16
  {
    if c <= '9' then (c as int - '0' as int) as nat else (c as int - 'a' as int) as nat + 10
  }

  /** Digit and DigitValue are inverse on the sixteen digits. */
  lemma DigitInverse(d: nat, c: char)
    requires d < 16
    ensures IsHexDigit(Digit(d)) && DigitValue(Digit(d)) == d
    ensures IsHexDigit(c) ==> Digit(DigitValue(c)) == c && (DigitValue(c) == 0 <==> c == '0')
  {
  }

  predicate HexDigitsBetween(s: string, lo: nat, hi: nat)
    requires lo <= hi <= |s|
  {
    forall i :: lo <= i < hi ==> IsHexDigit(s[i])
  }

  /** A string hex() can return: "0x", then lowercase hex digits with no leading zero. */
  predicate IsCanonicalHex(s: string) {
    && |s| >= 3 && s[0] == '0' && s[1] == 'x'
    && HexDigitsBetween(s, 2, |s|)
    && (s[2] == '0' ==> |s| == 3)
  }

  /** The digits of n, most significant first, without leading zeros. */
  function HexDigits(n: nat): (d: string)
    ensures |d| > 0 && HexDigitsBetween(d, 0, |d|)
  {
    DigitInverse(n % 16, '0');
    if n < 16 then [Digit(n)] else HexDigits(n / 16) + [Digit(n % 16)]
  }

  /** Python's hex(n) for n >= 0. */
  function Hex(n: nat): (s: string)
    ensures IsCanonicalHex(s)
  {
    HexCanonical(n);
    "0x" + HexDigits(n)
  }

  /** The number the digits s[lo..hi] denote, most significant first. */
  function HexValue(s: string, lo: nat, hi: nat): nat
    requires lo <= hi <= |s| && HexDigitsBetween(s, lo, hi)
    decreases hi
  {
    if hi == lo then 0 else HexValue(s, lo, hi - 1) * 16 + DigitValue(s[hi - 1])
  }

  /** Python's int(s, 16) on a string hex() can return. */
  function ParseHex(s: string): nat
    requires IsCanonicalHex(s)
  {
    HexValue(s, 2, |s|)
  }

  lemma {:induction false} HexCanonical(n: nat)
    ensures IsCanonicalHex("0x" + HexDigits(n))
    ensures n > 0 ==> HexDigits(n)[0] != '0'
  {
    if n >= 16 {
      HexCanonical(n / 16);
      assert HexDigits(n)[0] == HexDigits(n / 16)[0];
    } else {
      DigitInverse(n, '0');
    }
  }

  lemma HexStep(n: nat)
    requires n >= 16
    ensures Hex(n) == Hex(n / 16) + [Digit(n % 16)]
  {
    assert "0x" + (HexDigits(n / 16) + [Digit(n % 16)]) == ("0x" + HexDigits(n / 16)) + [Digit(n % 16)];
  }

  /** The value of s[lo..hi] depends only on those characters. */
  lemma {:induction false} HexValueOfPrefix(s: string, t: string, lo: nat, hi: nat)
    requires lo <= hi <= |t| <= |s| && t == s[..|t|] && HexDigitsBetween(s, lo, hi)
    ensures HexDigitsBetween(t, lo, hi) && HexValue(t, lo, hi) == HexValue(s, lo, hi)
  {
    if hi > lo {
      HexValueOfPrefix(s, t, lo, hi - 1);
    }
  }

  /** hex() and int(_, 16) are inverse: hex(n) parses back to n. */
  lemma {:induction false} HexRoundTrip(n: nat)
    ensures ParseHex(Hex(n)) == n
  {
    if n >= 16 {
      var s, t := Hex(n), Hex(n / 16);
      HexStep(n);
      HexValueOfPrefix(s, t, 2, |t|);
      HexRoundTrip(n / 16);
      DigitInverse(n % 16, '0');
      assert s[|s| - 1] == Digit(n % 16);
    } else {
      DigitInverse(n, '0');
      assert Hex(n) == ['0', 'x', Digit(n)];
    }
  }

  lemma {:induction false} ZeroHexValue(s: string, k: nat)
    requires 2 < k <= |s| && HexDigitsBetween(s, 2, k) && HexValue(s, 2, k) == 0
    ensures s[2] == '0'
  {
    DigitInverse(0, s[k - 1]);
    if k > 3 {
      ZeroHexValue(s, k - 1);
    }
  }

  lemma {:induction false} CanonicalPrefixRoundTrip(s: string, k: nat)
    requires IsCanonicalHex(s) && 3 <= k <= |s|
    ensures Hex(HexValue(s, 2, k)) == s[..k]
  {
    DigitInverse(0, s[k - 1]);
    if k == 3 {
      assert Hex(HexValue(s, 2, 3)) == "0x" + [s[2]];
    } else {
      CanonicalPrefixRoundTrip(s, k - 1);
      var m := HexValue(s, 2, k - 1);
      if m == 0 {
        ZeroHexValue(s, k - 1);
        assert false;
      }
      var n := HexValue(s, 2, k);
      assert n / 16 == m && n % 16 == DigitValue(s[k - 1]);
      HexStep(n);
      assert s[..k] == s[..k - 1] + [s[k - 1]];
    }
  }

  /**
   * A key string equals hex(n) exactly when it is canonical and denotes n;
   * in particular a key with a leading zero digit, an upper-case digit or
   * a character that is no hex digit equals hex(n) for no n at all.
   */
  lemma HexMatches(n: nat, s: string)
    ensures Hex(n) == s <==> IsCanonicalHex(s) && ParseHex(s) == n
  {
    HexRoundTrip(n);
    if IsCanonicalHex(s) {
      CanonicalPrefixRoundTrip(s, |s|);
    }
  }

  /** Two digits s[lo], s[lo + 1] read as one number. */
  function Pair(s: string, lo: nat): nat
    requires lo + 2 <= |s| && HexDigitsBetween(s, lo, lo + 2)
  {
    0x10 * DigitValue(s[lo]) + DigitValue(s[lo + 1])
  }

  /** Four digits s[lo..lo + 4] read as one number. */
  function Quad(s: string, lo: nat): nat
    requires lo + 4 <= |s| && HexDigitsBetween(s, lo, lo + 4)
  {
    0x1000 * DigitValue(s[lo]) + 0x100 * DigitValue(s[lo + 1]) + 0x10 * DigitValue(s[lo + 2]) + DigitValue(s[lo + 3])
  }

  lemma HexValue4(s: string, lo: nat)
    requires lo + 4 <= |s| && HexDigitsBetween(s, lo, lo + 4)
    ensures HexValue(s, lo, lo + 4) == Quad(s, lo)
  {
    assert HexValue(s, lo, lo + 1) == DigitValue(s[lo]);
    assert HexValue(s, lo, lo + 2) == HexValue(s, lo, lo + 1) * 16 + DigitValue(s[lo + 1]);
    assert HexValue(s, lo, lo + 3) == HexValue(s, lo, lo + 2) * 16 + DigitValue(s[lo + 2]);
  }

  /** Four more digits shift what was read so far by 0x10000. */
  lemma HexValueAppend4(s: string, lo: nat, hi: nat)
    requires lo <= hi && hi + 4 <= |s| && HexDigitsBetween(s, lo, hi + 4)
    ensures HexValue(s, lo, hi + 4) == HexValue(s, lo, hi) * 0x1_0000 + Quad(s, hi)
  {
    var v := HexValue(s, lo, hi);
    HexValue4(s, hi);
    assert HexValue(s, lo, hi + 1) == v * 16 + DigitValue(s[hi]);
    assert HexValue(s, lo, hi + 2) == v * 0x100 + 0x10 * DigitValue(s[hi]) + DigitValue(s[hi + 1]);
    assert HexValue(s, lo, hi + 3) == v * 0x1000 + 0x100 * DigitValue(s[hi]) + 0x10 * DigitValue(s[hi + 1]) + DigitValue(s[hi + 2]);
  }

  /*
   * A signature key is the hex() text of exactly one number, the one its
   * digits denote. There is one lemma per key length (4, 6, 8, 12 and 16
   * digits), each reading the digits in groups of four.
   */

  lemma KeyDenotes4(n: nat, key: string, v: nat)
    requires |key| == 6 && IsCanonicalHex(key) && v == Quad(key, 2)
    ensures Hex(n) == key <==> n == v
  {
    HexValue4(key, 2);
    HexMatches(n, key);
  }

  lemma KeyDenotes6(n: nat, key: string, v: nat)
    requires |key| == 8 && IsCanonicalHex(key) && v == Pair(key, 2) * 0x1_0000 + Quad(key, 4)
    ensures Hex(n) == key <==> n == v
  {
    assert HexValue(key, 2, 3) == DigitValue(key[2]);
    HexValueAppend4(key, 2, 4);
    HexMatches(n, key);
  }

  lemma KeyDenotes8(n: nat, key: string, v: nat)
    requires |key| == 10 && IsCanonicalHex(key) && v == Quad(key, 2) * 0x1_0000 + Quad(key, 6)
    ensures Hex(n) == key <==> n == v
  {
    HexValue4(key, 2);
    HexValueAppend4(key, 2, 6);
    HexMatches(n, key);
  }

  lemma KeyDenotes12(n: nat, key: string, v: nat)
    requires |key| == 14 && IsCanonicalHex(key)
    requires v == (Quad(key, 2) * 0x1_0000 + Quad(key, 6)) * 0x1_0000 + Quad(key, 10)
    ensures Hex(n) == key <==> n == v
  {
    HexValue4(key, 2);
    HexValueAppend4(key, 2, 6);
    HexValueAppend4(key, 2, 10);
    HexMatches(n, key);
  }

  lemma KeyDenotes16(n: nat, key: string, v: nat)
    requires |key| == 18 && IsCanonicalHex(key)
    requires v == ((Quad(key, 2) * 0x1_0000 + Quad(key, 6)) * 0x1_0000 + Quad(key, 10)) * 0x1_0000 + Quad(key, 14)
    ensures Hex(n) == key <==> n == v
  {
    HexValue16(key);
    HexMatches(n, key);
  }

  /** Sixteen digits read in groups of four. */
  lemma HexValue16(s: string)
    requires |s| == 18 && HexDigitsBetween(s, 2, 18)
    ensures HexValue(s, 2, 18) == ((Quad(s, 2) * 0x1_0000 + Quad(s, 6)) * 0x1_0000 + Quad(s, 10)) * 0x1_0000 + Quad(s, 14)
  {
    HexValue4(s, 2);
    HexValueAppend4(s, 2, 6);
    HexValueAppend4(s, 2, 10);
    HexValueAppend4(s, 2, 14);
  }
}
