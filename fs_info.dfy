/**
 * The FSInfo sector, laid out as the "FAT32 FSInfo Sector Structure" of
 * Microsoft's FAT32 File System Specification: three signatures and the
 * free-space summary that bounds the carving scan. The parser reads sector 1
 * itself, not the sector the boot record's fileSystemInfo field names.
 */
module FsInfoParser {
  import opened Bytes
  import opened Wrappers
  import opened Image

  datatype FsInfo = FsInfo(freeClusterCount: nat, nextFreeCluster: nat)

  const FsInfoSector: nat := 1

  /** The three signatures, each read big-endian from its offset in the sector. */
  const LeadSignature: nat := 0x52526141    // offset 0
  const StructSignature: nat := 0x72724161  // offset 484
  const TrailSignature: nat := 0x000055AA   // offset 508

  /** Decodes sector 1; fails unless the sector is whole and carries all three signatures. */
  function ParseFsInfo(image: seq<Byte>): (r: Result<FsInfo, Error>)
    ensures r.Ok? <==>
      && |image| >= 2 * SectorSize
      && image[512..516] == [0x52, 0x52, 0x61, 0x41]
      && image[996..1000] == [0x72, 0x72, 0x41, 0x61]
      && image[1020..1024] == [0x00, 0x00, 0x55, 0xAA]
    ensures |image| < 2 * SectorSize ==> r == Err(ShortRead)
    ensures r.Err? && |image| >= 2 * SectorSize ==> r == Err(NotFsInfo)
    ensures r.Ok? ==> r.value.freeClusterCount == LeUint(image[1000..1004])
    ensures r.Ok? ==> r.value.nextFreeCluster == LeUint(image[1004..1008])
  {
    var s := ReadSectors(image, FsInfoSector, 1).value;
    if |s| < SectorSize then Err(ShortRead)
    else
      var lead, struct, trail := BeUint(s[0..4]), BeUint(s[484..488]), BeUint(s[508..512]);
      LeadSignatureBytes(s[0..4]);
      StructSignatureBytes(s[484..488]);
      TrailSignatureBytes(s[508..512]);
      assert s[0..4] == image[512..516] && s[484..488] == image[996..1000] && s[508..512] == image[1020..1024];
      assert s[488..492] == image[1000..1004] && s[492..496] == image[1004..1008];
      if lead != LeadSignature || struct != StructSignature || trail != TrailSignature then Err(NotFsInfo)
      else Ok(FsInfo(freeClusterCount := LeUint(s[488..492]), nextFreeCluster := LeUint(s[492..496])))
  }

  /** The lead signature, read big-endian, is the bytes "RRaA". */
  lemma LeadSignatureBytes(s: seq<Byte>)
    requires |s| == 4
    ensures BeUint(s) == LeadSignature <==> s == [0x52, 0x52, 0x61, 0x41]
  {
    BeUintIs(s, LeadSignature);
    assert BeBytes(LeadSignature, 4) == [0x52, 0x52, 0x61, 0x41];
  }

  /** The struct signature, read big-endian, is the bytes "rrAa". */
  lemma StructSignatureBytes(s: seq<Byte>)
    requires |s| == 4
    ensures BeUint(s) == StructSignature <==> s == [0x72, 0x72, 0x41, 0x61]
  {
    BeUintIs(s, StructSignature);
    assert BeBytes(StructSignature, 4) == [0x72, 0x72, 0x41, 0x61];
  }

  /** The trail signature, read big-endian, is the bytes 00 00 55 AA. */
  lemma TrailSignatureBytes(s: seq<Byte>)
    requires |s| == 4
    ensures BeUint(s) == TrailSignature <==> s == [0x00, 0x00, 0x55, 0xAA]
  {
    BeUintIs(s, TrailSignature);
    assert BeBytes(TrailSignature, 4) == [0x00, 0x00, 0x55, 0xAA];
  }
}
