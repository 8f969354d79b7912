/**
 * The built-in signature tables of the carver. Each table is a dictionary
 * from the hex() text of a big-endian key to a file-type label, written as a
 * literal in which a repeated key keeps its last value. A Dafny map display
 * has that same rule, so the tables below are the literals as they stand.
 *
 * Next to each table is the value-keyed table it amounts to: the numbers
 * whose hex() text is one of its keys. Keys with a leading zero digit or a
 * character that is not a lowercase hex digit are text hex() never writes,
 * so those entries drop out.
 */
module Signatures {
  import opened Bytes
  import opened HexText

  /** The 8-byte label that sends a hit to the ZIP inspector in Office mode. */
  const OfficeHitLabel := "DOCX, PPTX, XLSX"
  /** The 4-byte label that sends a hit to the ZIP inspector in plain mode. */
  const ZipHitLabel := "ZIP"

  const Sig2Table: map<string, string> := map["0x424d" := "BMP"]

  const Sig3Table: map<string, string> := map[
    "0x49492a" := "TIF, TIFF", "0x4d4d2a" := "TIF, TIFF", "0x1f8b08" := "GZ", "0x1f9d90" := "TAR.Z",
    "0x425a68" := "BZ2, TAR, TBZ2, TB2", "0x435753" := "SWF", "0x464c56" := "SWF", "0x465753" := "SWF",
    "0x494433" := "MP3"]

  const Sig4Table: map<string, string> := map[
    "0x00000100" := "ICO", "0x00000200" := "CUR", "0xffd8ffe0" := "JPG",
    "0xffd8ffe1" := "JPG", "0xffd8ffe8" := "JPG", "0xd7cdc69a" := "WMF", "0x01000000" := "EMF", "0x000001bx" := "MPG",
    "0x00010008" := "IMG", "0x25504446" := "PDF", "0x414c5a01" := "ALZ", "0x504b0304" := ZipHitLabel, "0x52494646" := "AVI",
    "0x52494646" := "WAV"]

  const Sig6Table: map<string, string> := map[
    "0x474946383761" := "GIF", "0x474946383961" := "GIF", "0x377abcaf271c" := "7Z",
    "0x4a4152435300" := "JAR"]

  const Sig8Table: map<string, string> := map[
    "0x89504e470d0a1a0a" := "PNG", "0x252150532d41646f" := "EPS", "0x0000001866747970" := "MP4",
    "0x504b030414000600" := OfficeHitLabel, "0x504b030414000800" := "JAR", "0xd0cf11e0a1b11ae1" := "HWP"]

  const Sig2Values: map<nat, string> := map[0x424d := "BMP"]

  const Sig3Values: map<nat, string> := map[
    0x49492a := "TIF, TIFF", 0x4d4d2a := "TIF, TIFF", 0x1f8b08 := "GZ", 0x1f9d90 := "TAR.Z",
    0x425a68 := "BZ2, TAR, TBZ2, TB2", 0x435753 := "SWF", 0x464c56 := "SWF", 0x465753 := "SWF",
    0x494433 := "MP3"]

  /** ICO, CUR, EMF, MPG and IMG are absent, and RIFF means WAV only. */
  const Sig4Values: map<nat, string> := map[
    0xffd8ffe0 := "JPG", 0xffd8ffe1 := "JPG", 0xffd8ffe8 := "JPG", 0xd7cdc69a := "WMF",
    0x25504446 := "PDF", 0x414c5a01 := "ALZ", 0x504b0304 := ZipHitLabel, 0x52494646 := "WAV"]

  const Sig6Values: map<nat, string> := map[
    0x474946383761 := "GIF", 0x474946383961 := "GIF", 0x377abcaf271c := "7Z", 0x4a4152435300 := "JAR"]

  /** MP4 is absent. */
  const Sig8Values: map<nat, string> := map[
    0x89504e470d0a1a0a := "PNG", 0x252150532d41646f := "EPS", 0x504b030414000600 := OfficeHitLabel,
    0x504b030414000800 := "JAR", 0xd0cf11e0a1b11ae1 := "HWP"]

  /** Looking up hex(n) in the text-keyed table finds what looking up n finds in the value-keyed one. */
  predicate AgreeAt(table: map<string, string>, values: map<nat, string>, n: nat) {
    && (Hex(n) in table <==> n in values)
    && (n in values ==> table[Hex(n)] == values[n])
  }

  /**
   * The big-endian keys get_file_format builds from the signature bytes.
   * Each key fits in its width, so its hex() text has at most two digits per byte.
   */
  function Key2(sig: seq<Byte>): (k: nat)
    requires |sig| >= 2
    ensures k < 0x1_0000
  {
    BeUint(sig[0..2])
  }

  function Key3(sig: seq<Byte>): (k: nat)
    requires |sig| >= 3
    ensures k < 0x100_0000
  {
    BeUint(sig[0..2]) * 0x100 + sig[2]
  }

  function Key4(sig: seq<Byte>): (k: nat)
    requires |sig| >= 4
    ensures k < 0x1_0000_0000
  {
    BeUint(sig[0..4])
  }

  function Key6(sig: seq<Byte>): (k: nat)
    requires |sig| >= 6
    ensures k < 0x1_0000_0000_0000
  {
    BeUint(sig[0..4]) * 0x1_0000 + BeUint(sig[4..6])
  }

  function Key8(sig: seq<Byte>): (k: nat)
    requires |sig| >= 8
    ensures k < 0x1_0000_0000_0000_0000
  {
    BeUint(sig[0..8])
  }

  /** Each key is the big-endian number formed by the first 2, 3, 4, 6 or 8 bytes. */
  lemma KeysAreBigEndianPrefixes(sig: seq<Byte>)
    requires |sig| >= 8
    ensures Key2(sig) == BeUint(sig[..2]) && Key3(sig) == BeUint(sig[..3]) && Key4(sig) == BeUint(sig[..4])
    ensures Key6(sig) == BeUint(sig[..6]) && Key8(sig) == BeUint(sig[..8])
  {
    var s := sig[..8];
    BeUintPrefix(s, 1);
    BeUintPrefix(s, 2);
    BeUintPrefix(s, 3);
    BeUintPrefix(s, 4);
    BeUintPrefix(s, 5);
    BeUintPrefix(s, 6);
    assert s[..0] == [];
    assert sig[..2] == sig[0..2] == s[..2] && sig[..3] == s[..3] && sig[..4] == sig[0..4] == s[..4];
    assert sig[..6] == s[..6] && sig[..8] == sig[0..8] == s;
    BeUint16(sig[4..6]);
    assert sig[4..6] == [s[4], s[5]];
  }

  /** The keys written out byte by byte. */
  lemma KeyBytes(sig: seq<Byte>)
    requires |sig| >= 8
    ensures Key2(sig) == 0x100 * sig[0] as int + sig[1] as int
    ensures Key3(sig) == 0x1_0000 * sig[0] as int + 0x100 * sig[1] as int + sig[2] as int
    ensures Key4(sig) == 0x100_0000 * sig[0] as int + 0x1_0000 * sig[1] as int + 0x100 * sig[2] as int + sig[3] as int
    ensures Key6(sig) == Key4(sig) * 0x1_0000 + 0x100 * sig[4] as int + sig[5] as int
    ensures Key8(sig) == Key4(sig) * 0x1_0000_0000 + BeUint(sig[4..8]) && BeUint(sig[4..8]) < 0x1_0000_0000
  {
    BeUint16(sig[0..2]);
    BeUint32(sig[0..4]);
    BeUint16(sig[4..6]);
    var s := sig[0..8];
    BeUint64(s);
    assert s[..4] == sig[0..4] && s[4..] == sig[4..8];
    assert Pow256(4) == 0x1_0000_0000;
  }

  /**
   * The ICO, CUR, EMF, MPG, IMG and MP4 keys are text hex() never writes:
   * each has a leading zero digit, and the MPG key has an 'x' among its digits.
   */
  lemma UnmatchableKeys(n: nat)
    ensures Hex(n) != "0x00000100" && Hex(n) != "0x00000200" && Hex(n) != "0x01000000"
    ensures Hex(n) != "0x000001bx" && Hex(n) != "0x00010008" && Hex(n) != "0x0000001866747970"
  {
  }

  /** hex(n) is the BMP key exactly when n is the number it spells. */
  lemma BmpKey(n: nat)
    ensures Hex(n) == "0x424d" <==> n == 0x424d
  {
    KeyDenotes4(n, "0x424d", 0x424d);
  }

  /** hex(n) is one of the two TIFF keys or the GZ key exactly when n is the number it spells. */
  lemma TiffGzipKeys(n: nat)
    ensures Hex(n) == "0x49492a" <==> n == 0x49492a
    ensures Hex(n) == "0x4d4d2a" <==> n == 0x4d4d2a
    ensures Hex(n) == "0x1f8b08" <==> n == 0x1f8b08
  {
    KeyDenotes6(n, "0x49492a", 0x49492a);
    KeyDenotes6(n, "0x4d4d2a", 0x4d4d2a);
    KeyDenotes6(n, "0x1f8b08", 0x1f8b08);
  }

  /** hex(n) is the TAR.Z, BZ2 or MP3 key exactly when n is the number it spells. */
  lemma CompressedAudioKeys(n: nat)
    ensures Hex(n) == "0x1f9d90" <==> n == 0x1f9d90
    ensures Hex(n) == "0x425a68" <==> n == 0x425a68
    ensures Hex(n) == "0x494433" <==> n == 0x494433
  {
    KeyDenotes6(n, "0x1f9d90", 0x1f9d90);
    KeyDenotes6(n, "0x425a68", 0x425a68);
    KeyDenotes6(n, "0x494433", 0x494433);
  }

  /** hex(n) is one of the three SWF keys exactly when n is the number it spells. */
  lemma FlashKeys(n: nat)
    ensures Hex(n) == "0x435753" <==> n == 0x435753
    ensures Hex(n) == "0x464c56" <==> n == 0x464c56
    ensures Hex(n) == "0x465753" <==> n == 0x465753
  {
    KeyDenotes6(n, "0x435753", 0x435753);
    KeyDenotes6(n, "0x464c56", 0x464c56);
    KeyDenotes6(n, "0x465753", 0x465753);
  }

  /** hex(n) is one of the three JPG keys exactly when n is the number it spells. */
  lemma JpegKeys(n: nat)
    ensures Hex(n) == "0xffd8ffe0" <==> n == 0xffd8ffe0
    ensures Hex(n) == "0xffd8ffe1" <==> n == 0xffd8ffe1
    ensures Hex(n) == "0xffd8ffe8" <==> n == 0xffd8ffe8
  {
    KeyDenotes8(n, "0xffd8ffe0", 0xffd8ffe0);
    KeyDenotes8(n, "0xffd8ffe1", 0xffd8ffe1);
    KeyDenotes8(n, "0xffd8ffe8", 0xffd8ffe8);
  }

  /** hex(n) is the WMF or PDF key exactly when n is the number it spells. */
  lemma WmfPdfKeys(n: nat)
    ensures Hex(n) == "0xd7cdc69a" <==> n == 0xd7cdc69a
    ensures Hex(n) == "0x25504446" <==> n == 0x25504446
  {
    KeyDenotes8(n, "0xd7cdc69a", 0xd7cdc69a);
    KeyDenotes8(n, "0x25504446", 0x25504446);
  }

  /** hex(n) is the ALZ, ZIP or RIFF key exactly when n is the number it spells. */
  lemma ArchiveRiffKeys(n: nat)
    ensures Hex(n) == "0x414c5a01" <==> n == 0x414c5a01
    ensures Hex(n) == "0x504b0304" <==> n == 0x504b0304
    ensures Hex(n) == "0x52494646" <==> n == 0x52494646
  {
    KeyDenotes8(n, "0x414c5a01", 0x414c5a01);
    KeyDenotes8(n, "0x504b0304", 0x504b0304);
    KeyDenotes8(n, "0x52494646", 0x52494646);
  }

  /** hex(n) is one of the two GIF keys exactly when n is the number it spells. */
  lemma GifKeys(n: nat)
    ensures Hex(n) == "0x474946383761" <==> n == 0x474946383761
    ensures Hex(n) == "0x474946383961" <==> n == 0x474946383961
  {
    KeyDenotes12(n, "0x474946383761", 0x474946383761);
    KeyDenotes12(n, "0x474946383961", 0x474946383961);
  }

  /** hex(n) is the 7Z or JAR key exactly when n is the number it spells. */
  lemma SevenZipJarKeys(n: nat)
    ensures Hex(n) == "0x377abcaf271c" <==> n == 0x377abcaf271c
    ensures Hex(n) == "0x4a4152435300" <==> n == 0x4a4152435300
  {
    KeyDenotes12(n, "0x377abcaf271c", 0x377abcaf271c);
    KeyDenotes12(n, "0x4a4152435300", 0x4a4152435300);
  }

  /** hex(n) is the PNG key exactly when n is the number it spells. */
  lemma PngKey(n: nat)
    ensures Hex(n) == "0x89504e470d0a1a0a" <==> n == 0x89504e470d0a1a0a
  {
    KeyDenotes16(n, "0x89504e470d0a1a0a", 0x89504e470d0a1a0a);
  }

  /** hex(n) is the EPS key exactly when n is the number it spells. */
  lemma EpsKey(n: nat)
    ensures Hex(n) == "0x252150532d41646f" <==> n == 0x252150532d41646f
  {
    KeyDenotes16(n, "0x252150532d41646f", 0x252150532d41646f);
  }

  /** hex(n) is the Office key exactly when n is the number it spells. */
  lemma OfficeKey(n: nat)
    ensures Hex(n) == "0x504b030414000600" <==> n == 0x504b030414000600
  {
    KeyDenotes16(n, "0x504b030414000600", 0x504b030414000600);
  }

  /** hex(n) is the 8-byte JAR key exactly when n is the number it spells. */
  lemma JarKey(n: nat)
    ensures Hex(n) == "0x504b030414000800" <==> n == 0x504b030414000800
  {
    KeyDenotes16(n, "0x504b030414000800", 0x504b030414000800);
  }

  /** hex(n) is the HWP key exactly when n is the number it spells. */
  lemma HwpKey(n: nat)
    ensures Hex(n) == "0xd0cf11e0a1b11ae1" <==> n == 0xd0cf11e0a1b11ae1
  {
    KeyDenotes16(n, "0xd0cf11e0a1b11ae1", 0xd0cf11e0a1b11ae1);
  }

  /** The 2-byte table and its value-keyed form agree on every number. */
  lemma Sig2Agrees(n: nat)
    ensures AgreeAt(Sig2Table, Sig2Values, n)
  {
    BmpKey(n);
  }

  /** The 3-byte table and its value-keyed form agree on every number. */
  lemma Sig3Agrees(n: nat)
    ensures AgreeAt(Sig3Table, Sig3Values, n)
  {
    TiffGzipKeys(n);
    CompressedAudioKeys(n);
    FlashKeys(n);
  }

  /** The 4-byte table and its value-keyed form agree on every number. */
  lemma Sig4Agrees(n: nat)
    ensures AgreeAt(Sig4Table, Sig4Values, n)
  {
    JpegKeys(n);
    WmfPdfKeys(n);
    ArchiveRiffKeys(n);
    if n in Sig4Values {
      Sig4Lookup(n);
    }
  }

  /** Where the 4-byte key is listed, both forms of the table give the same label. */
  lemma Sig4Lookup(n: nat)
    requires n in Sig4Values
    ensures Hex(n) in Sig4Table && Sig4Table[Hex(n)] == Sig4Values[n]
  {
    Sig4Labels();
    JpegKeys(n);
    WmfPdfKeys(n);
    ArchiveRiffKeys(n);
    if n == 0xffd8ffe0 {
      assert Hex(n) == "0xffd8ffe0";
      assert Hex(n) in Sig4Table;
      assert Sig4Table[Hex(n)] == Sig4Values[n];
    } else if n == 0xffd8ffe1 {
      assert Hex(n) == "0xffd8ffe1";
      assert Hex(n) in Sig4Table;
      assert Sig4Table[Hex(n)] == Sig4Values[n];
    } else if n == 0xffd8ffe8 {
      assert Hex(n) == "0xffd8ffe8";
      assert Hex(n) in Sig4Table;
      assert Sig4Table[Hex(n)] == Sig4Values[n];
    } else if n == 0xd7cdc69a {
      assert Hex(n) == "0xd7cdc69a";
      assert Hex(n) in Sig4Table;
      assert Sig4Table[Hex(n)] == Sig4Values[n];
    } else if n == 0x25504446 {
      assert Hex(n) == "0x25504446";
      assert Hex(n) in Sig4Table;
      assert Sig4Table[Hex(n)] == Sig4Values[n];
    } else if n == 0x414c5a01 {
      assert Hex(n) == "0x414c5a01";
      assert Hex(n) in Sig4Table;
      assert Sig4Table[Hex(n)] == Sig4Values[n];
    } else if n == 0x504b0304 {
      assert Hex(n) == "0x504b0304";
      assert Hex(n) in Sig4Table;
      assert Sig4Table[Hex(n)] == Sig4Values[n];
    } else {
      assert n == 0x52494646;
      assert Hex(n) == "0x52494646";
      assert Hex(n) in Sig4Table;
      assert Sig4Table[Hex(n)] == Sig4Values[n];
    }
  }

  /** The labels of the 4-byte keys hex() can write, with RIFF keeping its later label. */
  lemma Sig4Labels()
    ensures Sig4Table["0xffd8ffe0"] == "JPG" && Sig4Table["0xffd8ffe1"] == "JPG" && Sig4Table["0xffd8ffe8"] == "JPG"
    ensures Sig4Table["0xd7cdc69a"] == "WMF" && Sig4Table["0x25504446"] == "PDF" && Sig4Table["0x414c5a01"] == "ALZ"
    ensures Sig4Table["0x504b0304"] == ZipHitLabel && Sig4Table["0x52494646"] == "WAV"
  {
  }

  /** The 6-byte table and its value-keyed form agree on every number. */
  lemma Sig6Agrees(n: nat)
    ensures AgreeAt(Sig6Table, Sig6Values, n)
  {
    GifKeys(n);
    SevenZipJarKeys(n);
  }

  /** The 8-byte table and its value-keyed form agree on every number. */
  lemma Sig8Agrees(n: nat)
    ensures AgreeAt(Sig8Table, Sig8Values, n)
  {
    PngKey(n);
    EpsKey(n);
    OfficeKey(n);
    JarKey(n);
    HwpKey(n);
  }
}
