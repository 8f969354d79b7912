/**
 * get_file_format: the first 16 bytes of a cluster are read as big-endian
 * keys of 8, 6, 4, 3 and 2 bytes, and the longest key whose hex() text is in
 * its table decides the file type. A ZIP or Office hit hands over to the ZIP
 * inspector; no hit at all gives no report (the source returns 0).
 */
module Classifier {
  import opened Bytes
  import opened Wrappers
  import opened Image
  import opened HexText
  import opened Signatures
  import opened ZipInspector

  /** The signature bytes every key needs: the 8-byte key reads bytes 0 to 7. */
  const SignatureLength: nat := 8

  /** get_file_format(signature, sector), with the tables looked up by hex() text. */
  function GetFileFormat(image: seq<Byte>, signature: seq<Byte>, sector: int): (r: Result<Option<string>, Error>)
    ensures |signature| < SignatureLength ==> r == Err(ShortRead)
  {
    if |signature| < SignatureLength then Err(ShortRead)
    else
      var k8, k6, k4 := Hex(Key8(signature)), Hex(Key6(signature)), Hex(Key4(signature));
      var k3, k2 := Hex(Key3(signature)), Hex(Key2(signature));
      if k8 in Sig8Table then
        if Sig8Table[k8] == OfficeHitLabel then GetFileInZip(image, sector, true) else Ok(Some(Sig8Table[k8]))
      else if k6 in Sig6Table then Ok(Some(Sig6Table[k6]))
      else if k4 in Sig4Table then
        if Sig4Table[k4] == ZipHitLabel then GetFileInZip(image, sector, false) else Ok(Some(Sig4Table[k4]))
      else if k3 in Sig3Table then Ok(Some(Sig3Table[k3]))
      else if k2 in Sig2Table then Ok(Some(Sig2Table[k2]))
      else Ok(None)
  }

  /** The same cascade over the value-keyed tables: the keys are compared as numbers. */
  function ClassifyByValue(image: seq<Byte>, signature: seq<Byte>, sector: int): (r: Result<Option<string>, Error>)
    requires |signature| >= SignatureLength
    ensures r.Err? ==> r == GetFileInZip(image, sector, true) || r == GetFileInZip(image, sector, false)
  {
    var k8, k6, k4, k3, k2 := Key8(signature), Key6(signature), Key4(signature), Key3(signature), Key2(signature);
    if k8 in Sig8Values then
      if Sig8Values[k8] == OfficeHitLabel then GetFileInZip(image, sector, true) else Ok(Some(Sig8Values[k8]))
    else if k6 in Sig6Values then Ok(Some(Sig6Values[k6]))
    else if k4 in Sig4Values then
      if Sig4Values[k4] == ZipHitLabel then GetFileInZip(image, sector, false) else Ok(Some(Sig4Values[k4]))
    else if k3 in Sig3Values then Ok(Some(Sig3Values[k3]))
    else if k2 in Sig2Values then Ok(Some(Sig2Values[k2]))
    else Ok(None)
  }

  /** Looking keys up by their hex() text classifies every signature as comparing the numbers does. */
  lemma ClassifyByText(image: seq<Byte>, signature: seq<Byte>, sector: int)
    requires |signature| >= SignatureLength
    ensures GetFileFormat(image, signature, sector) == ClassifyByValue(image, signature, sector)
  {
    Sig8Agrees(Key8(signature));
    Sig6Agrees(Key6(signature));
    Sig4Agrees(Key4(signature));
    Sig3Agrees(Key3(signature));
    Sig2Agrees(Key2(signature));
  }

  /** Every label the ZIP inspector reports is non-empty. */
  lemma InspectorLabelsNonEmpty(image: seq<Byte>, sector: int, office: bool)
    requires GetFileInZip(image, sector, office).Ok? && GetFileInZip(image, sector, office).value.Some?
    ensures |GetFileInZip(image, sector, office).value.value| > 0
  {
    if !office {
      PlainReport(image, sector);
    } else {
      OfficeReport(image, sector);
    }
  }

  /**
   * Every label get_file_format reports is a non-empty string, so a cluster
   * is reported exactly when a label comes back.
   */
  lemma HitsAreNonEmpty(image: seq<Byte>, signature: seq<Byte>, sector: int)
    requires |signature| >= SignatureLength
    ensures var r := ClassifyByValue(image, signature, sector);
      r.Ok? && r.value.Some? ==> |r.value.value| > 0
  {
    var k8, k4 := Key8(signature), Key4(signature);
    if k8 in Sig8Values && Sig8Values[k8] == OfficeHitLabel {
      if GetFileInZip(image, sector, true).Ok? && GetFileInZip(image, sector, true).value.Some? {
        InspectorLabelsNonEmpty(image, sector, true);
      }
    } else if k8 !in Sig8Values && Key6(signature) !in Sig6Values && k4 in Sig4Values && Sig4Values[k4] == ZipHitLabel {
      if GetFileInZip(image, sector, false).Ok? && GetFileInZip(image, sector, false).value.Some? {
        InspectorLabelsNonEmpty(image, sector, false);
      }
    }
  }

  /**
   * A signature whose first byte is below 0x1F is never reported. The ICO,
   * CUR, EMF, MPG, IMG and MP4 keys all start with such a byte: their hex()
   * text would need a leading zero digit, which hex() never writes.
   */
  lemma LowFirstByteNeverReported(image: seq<Byte>, signature: seq<Byte>, sector: int)
    requires |signature| >= SignatureLength && signature[0] < 0x1F
    ensures ClassifyByValue(image, signature, sector) == Ok(None)
  {
    LowKeys(signature);
  }

  /** The bounds on every key that a first byte below 0x1F gives. */
  lemma LowKeys(signature: seq<Byte>)
    requires |signature| >= SignatureLength && signature[0] < 0x1F
    ensures Key2(signature) < 0x1F00 && Key3(signature) < 0x1F_0000 && Key4(signature) < 0x1F00_0000
    ensures Key6(signature) < 0x1F00_0000_0000 && Key8(signature) < 0x1F00_0000_0000_0000
  {
    KeyBytes(signature);
    assert Key4(signature) < 0x1F00_0000;
  }

  /** A RIFF header is reported as WAV: the later "WAV" entry replaces "AVI" in the table. */
  lemma RiffIsWav(image: seq<Byte>, signature: seq<Byte>, sector: int)
    requires |signature| >= SignatureLength && signature[..4] == [0x52, 0x49, 0x46, 0x46]
    ensures ClassifyByValue(image, signature, sector) == Ok(Some("WAV"))
  {
    KeyBytes(signature);
    assert signature[0] == 0x52 && signature[1] == 0x49 && signature[2] == 0x46 && signature[3] == 0x46;
  }

  /** The eight-byte PNG header is reported as PNG. */
  lemma PngIsPng(image: seq<Byte>, signature: seq<Byte>, sector: int)
    requires |signature| >= SignatureLength && signature[..8] == [0x89, 0x50, 0x4E, 0x47, 0x0D, 0x0A, 0x1A, 0x0A]
    ensures ClassifyByValue(image, signature, sector) == Ok(Some("PNG"))
  {
    KeyBytes(signature);
    BeUint32(signature[4..8]);
    assert signature[0] == 0x89 && signature[1] == 0x50 && signature[2] == 0x4E && signature[3] == 0x47;
    assert signature[4..8] == [0x0D, 0x0A, 0x1A, 0x0A];
  }

  /** The 8-byte JAR header wins over the 4-byte ZIP header it begins with. */
  lemma JarBeforeZip(image: seq<Byte>, signature: seq<Byte>, sector: int)
    requires |signature| >= SignatureLength && signature[..8] == [0x50, 0x4B, 0x03, 0x04, 0x14, 0x00, 0x08, 0x00]
    ensures ClassifyByValue(image, signature, sector) == Ok(Some("JAR"))
  {
    KeyBytes(signature);
    BeUint32(signature[4..8]);
    assert signature[0] == 0x50 && signature[1] == 0x4B && signature[2] == 0x03 && signature[3] == 0x04;
    assert signature[4..8] == [0x14, 0x00, 0x08, 0x00];
  }

  /** The Office header sends the cluster to the ZIP inspector in Office mode. */
  lemma OfficeGoesToInspector(image: seq<Byte>, signature: seq<Byte>, sector: int)
    requires |signature| >= SignatureLength && signature[..8] == [0x50, 0x4B, 0x03, 0x04, 0x14, 0x00, 0x06, 0x00]
    ensures ClassifyByValue(image, signature, sector) == GetFileInZip(image, sector, true)
  {
    KeyBytes(signature);
    BeUint32(signature[4..8]);
    assert signature[0] == 0x50 && signature[1] == 0x4B && signature[2] == 0x03 && signature[3] == 0x04;
    assert signature[4..8] == [0x14, 0x00, 0x06, 0x00];
  }

  /** Any other local file header sends the cluster to the ZIP inspector in plain mode. */
  lemma ZipGoesToInspector(image: seq<Byte>, signature: seq<Byte>, sector: int)
    requires |signature| >= SignatureLength && signature[..4] == [0x50, 0x4B, 0x03, 0x04]
    requires signature[4..8] != [0x14, 0x00, 0x06, 0x00] && signature[4..8] != [0x14, 0x00, 0x08, 0x00]
    ensures ClassifyByValue(image, signature, sector) == GetFileInZip(image, sector, false)
  {
    KeyBytes(signature);
    assert signature[0] == 0x50 && signature[1] == 0x4B && signature[2] == 0x03 && signature[3] == 0x04;
    assert Key4(signature) == 0x504B_0304;
    var tail := BeUint(signature[4..8]);
    assert tail != 0x1400_0600 && tail != 0x1400_0800 by {
      OfficeJarTails(signature[4..8]);
    }
    assert Key8(signature) != 0x504B_0304_1400_0600 && Key8(signature) != 0x504B_0304_1400_0800;
    assert Key8(signature) !in Sig8Values;
    assert Key6(signature) / 0x1_0000 == 0x504B_0304;
    assert Key6(signature) !in Sig6Values;
    assert Key4(signature) in Sig4Values && Sig4Values[Key4(signature)] == ZipHitLabel;
  }

  /** The last four bytes of the Office and 8-byte JAR headers, as big-endian numbers. */
  lemma OfficeJarTails(tail: seq<Byte>)
    requires |tail| == 4
    ensures BeUint(tail) == 0x1400_0600 <==> tail == [0x14, 0x00, 0x06, 0x00]
    ensures BeUint(tail) == 0x1400_0800 <==> tail == [0x14, 0x00, 0x08, 0x00]
  {
    BeUint32(tail);
  }
}
