/**
 * Bytes of the image and the fixed-width unsigned integers struct.unpack
 * reads from them: "<H" and "<L" little-endian, ">H", ">L" and ">Q"
 * big-endian.
 */
module Bytes {

  type Byte = b: int | 0 <= b < 256

  function Pow256(k: nat): (p: nat)
    ensures p > 0
  {
    if k == 0 then 1 else 256 * Pow256(k - 1)
  }

  /** The unsigned integer whose least significant byte comes first. */
  function LeUint(s: seq<Byte>): (n: nat)
    ensures n < Pow256(|s|)
  {
    if s == [] then 0 else s[0] + 256 * LeUint(s[1..])
  }

  /** The unsigned integer whose most significant byte comes first. */
  function BeUint(s: seq<Byte>): (n: nat)
    ensures n < Pow256(|s|)
  {
    if s == [] then 0 else BeUint(s[..|s| - 1]) * 256 + s[|s| - 1]
  }

  /** The k bytes that store n least significant first. */
  function LeBytes(n: nat, k: nat): (s: seq<Byte>)
    requires n < Pow256(k)
    ensures |s| == k
  {
    if k == 0 then [] else [n % 256] + LeBytes(n / 256, k - 1)
  }

  /** The k bytes that store n most significant first. */
  function BeBytes(n: nat, k: nat): (s: seq<Byte>)
    requires n < Pow256(k)
    ensures |s| == k
  {
    if k == 0 then [] else BeBytes(n / 256, k - 1) + [n % 256]
  }

  lemma {:induction false} LeRoundTrip(n: nat, k: nat)
    requires n < Pow256(k)
    ensures LeUint(LeBytes(n, k)) == n
  {
    if k > 0 {
      LeRoundTrip(n / 256, k - 1);
      assert LeBytes(n, k)[1..] == LeBytes(n / 256, k - 1);
    }
  }

  lemma {:induction false} LeBytesRoundTrip(s: seq<Byte>)
    ensures LeBytes(LeUint(s), |s|) == s
  {
    if s != [] {
      LeBytesRoundTrip(s[1..]);
      ByteSplit(s[0], LeUint(s[1..]));
      assert LeBytes(LeUint(s), |s|) == [s[0]] + LeBytes(LeUint(s[1..]), |s| - 1);
      assert s == [s[0]] + s[1..];
    }
  }

  lemma {:induction false} BeRoundTrip(n: nat, k: nat)
    requires n < Pow256(k)
    ensures BeUint(BeBytes(n, k)) == n
  {
    if k > 0 {
      BeRoundTrip(n / 256, k - 1);
      var s := BeBytes(n, k);
      assert s[..|s| - 1] == BeBytes(n / 256, k - 1);
    }
  }

  lemma {:induction false} BeBytesRoundTrip(s: seq<Byte>)
    ensures BeBytes(BeUint(s), |s|) == s
  {
    if s != [] {
      var init := s[..|s| - 1];
      BeBytesRoundTrip(init);
      ByteSplit(s[|s| - 1], BeUint(init));
      assert BeBytes(BeUint(s), |s|) == BeBytes(BeUint(init), |s| - 1) + [s[|s| - 1]];
      assert s == init + [s[|s| - 1]];
    }
  }

  /** A number whose lowest base-256 digit is b splits back into b and the rest. */
  lemma ByteSplit(b: Byte, rest: nat)
    ensures (b + 256 * rest) % 256 == b && (b + 256 * rest) / 256 == rest
  {
  }

  /** A big-endian field equals a constant exactly when its bytes spell the constant. */
  lemma BeUintIs(s: seq<Byte>, n: nat)
    requires n < Pow256(|s|)
    ensures BeUint(s) == n <==> s == BeBytes(n, |s|)
  {
    BeRoundTrip(n, |s|);
    BeBytesRoundTrip(s);
  }

  /** Dropping the last byte of a big-endian number divides off its lowest digit. */
  lemma BeUintPrefix(s: seq<Byte>, k: nat)
    requires 0 < k <= |s|
    ensures BeUint(s[..k]) == BeUint(s[..k - 1]) * 256 + s[k - 1] as int
  {
    assert s[..k][..k - 1] == s[..k - 1];
  }

  lemma LeUint16(s: seq<Byte>)
    requires |s| == 2
    ensures LeUint(s) == s[0] as int + 0x100 * s[1] as int
  {
    assert s[1..][1..] == [];
  }

  lemma LeUint32(s: seq<Byte>)
    requires |s| == 4
    ensures LeUint(s) == s[0] as int + 0x100 * s[1] as int + 0x1_0000 * s[2] as int + 0x100_0000 * s[3] as int
  {
    LeUint16(s[2..]);
    assert s[1..][1..] == s[2..];
  }

  lemma BeUint16(s: seq<Byte>)
    requires |s| == 2
    ensures BeUint(s) == 0x100 * s[0] as int + s[1] as int
  {
    assert s[..1][..0] == [];
  }

  lemma BeUint32(s: seq<Byte>)
    requires |s| == 4
    ensures BeUint(s) == 0x100_0000 * s[0] as int + 0x1_0000 * s[1] as int + 0x100 * s[2] as int + s[3] as int
  {
    BeUintPrefix(s, 1);
    BeUintPrefix(s, 2);
    BeUintPrefix(s, 3);
    BeUintPrefix(s, 4);
    assert s[..0] == [] && s[..4] == s;
  }

  lemma BeUint64(s: seq<Byte>)
    requires |s| == 8
    ensures BeUint(s) == BeUint(s[..4]) * 0x1_0000_0000 + BeUint(s[4..])
  {
    BeUint32(s[..4]);
    BeUint32(s[4..]);
    BeUintPrefix(s, 1);
    BeUintPrefix(s, 2);
    BeUintPrefix(s, 3);
    BeUintPrefix(s, 4);
    BeUintPrefix(s, 5);
    BeUintPrefix(s, 6);
    BeUintPrefix(s, 7);
    BeUintPrefix(s, 8);
    assert s[..0] == [] && s[..8] == s;
  }
}
