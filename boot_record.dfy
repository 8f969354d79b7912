/**
 * The FAT32 boot sector (sector 0): the BIOS Parameter Block fields at their
 * fixed offsets, laid out as in the "Boot Sector and BPB" structure of
 * Microsoft's FAT32 File System Specification, and the trailing boot
 * signature that marks the image as a FAT volume.
 */
module BootRecordParser {
  import opened Bytes
  import opened Wrappers
  import opened Image
  import opened Utf8

  datatype BootRecord = BootRecord(
    bytesPerSector: nat,         // u16 at 11
    sectorPerCluster: Byte,      // u8 at 13
    reservedSectorCount: nat,    // u16 at 14
    numberOfFats: Byte,          // u8 at 16
    media: Byte,                 // u8 at 21
    hiddenSector: nat,           // u32 at 28
    totalSector32: nat,          // u32 at 32
    fatSize32: nat,              // u32 at 36
    rootDirCluster: nat,         // u32 at 44
    fileSystemInfo: nat,         // u16 at 48
    bootRecordBackupSec: nat,    // u16 at 50
    volumeId: nat,               // u32 at 67
    volumeLabel: seq<Byte>,      // 11 bytes at 71
    fileSystemType: seq<Byte>,   // 8 bytes at 82
    mediaType: string            // classification of the media byte
  )

  const Disk := "DISK"
  const FloppyDisk := "FLOPPY DISK"

  /** The media descriptor byte named as a fixed disk, a floppy disk, or "" for any other value. */
  function MediaType(media: Byte): (t: string)
    ensures t == Disk <==> media == 0xF8
    ensures t == FloppyDisk <==> media in {0xF0, 0xF9, 0xFC, 0xFD, 0xFE, 0xFF}
    ensures t == "" <==> media !in {0xF0, 0xF8, 0xF9, 0xFC, 0xFD, 0xFE, 0xFF}
  {
    if media == 0xF8 then Disk
    else if media == 0xF0 || media == 0xF9 then FloppyDisk
    else if media == 0xFC || media == 0xFD || media == 0xFE || media == 0xFF then FloppyDisk
    else ""
  }

  /** The trailing signature of a boot sector, read big-endian: bytes 0x55 then 0xAA. */
  const BootSignature: nat := 0x55AA

  /** The boot signature: bytes 510 and 511 of a whole sector 0 are 0x55 and 0xAA. */
  predicate HasBootSignature(image: seq<Byte>) {
    |image| >= SectorSize && image[510] == 0x55 && image[511] == 0xAA
  }

  /**
   * Decodes sector 0; fails unless the sector is whole and ends in the boot
   * signature, and then unless the volume label and file system type, which
   * are decoded as UTF-8 to be printed, are well-formed UTF-8.
   */
  function ParseBootRecord(image: seq<Byte>): (r: Result<BootRecord, Error>)
    ensures r.Ok? <==> HasBootSignature(image) && IsUtf8(image[71..82]) && IsUtf8(image[82..90])
    ensures |image| < SectorSize ==> r == Err(ShortRead)
    ensures |image| >= SectorSize && !HasBootSignature(image) ==> r == Err(NotFat32Image)
    ensures HasBootSignature(image) && !(IsUtf8(image[71..82]) && IsUtf8(image[82..90])) ==> r == Err(NotUtf8Text)
  {
    var b := ReadSectors(image, 0, 1).value;
    if |b| < SectorSize then Err(ShortRead)
    else
      BeUint16(b[510..512]);
      assert b[71..82] == image[71..82] && b[82..90] == image[82..90];
      if BeUint(b[510..512]) != BootSignature then Err(NotFat32Image)
      else if !IsUtf8(b[71..82]) || !IsUtf8(b[82..90]) then Err(NotUtf8Text)
      else Ok(BootRecord(
        bytesPerSector := LeUint(b[11..13]),
        sectorPerCluster := b[13],
        reservedSectorCount := LeUint(b[14..16]),
        numberOfFats := b[16],
        media := b[21],
        hiddenSector := LeUint(b[28..32]),
        totalSector32 := LeUint(b[32..36]),
        fatSize32 := LeUint(b[36..40]),
        rootDirCluster := LeUint(b[44..48]),
        fileSystemInfo := LeUint(b[48..50]),
        bootRecordBackupSec := LeUint(b[50..52]),
        volumeId := LeUint(b[67..71]),
        volumeLabel := b[71..82],
        fileSystemType := b[82..90],
        mediaType := MediaType(b[21])))
  }

  /**
   * Every field of a parsed boot record is the little-endian value of its
   * fixed byte range of sector 0, and the two strings are copied verbatim.
   */
  lemma BootRecordFields(image: seq<Byte>)
    requires ParseBootRecord(image).Ok?
    ensures var br := ParseBootRecord(image).value;
      && br.bytesPerSector == image[11] as int + 0x100 * image[12] as int
      && br.sectorPerCluster == image[13]
      && br.reservedSectorCount == image[14] as int + 0x100 * image[15] as int
      && br.numberOfFats == image[16]
      && br.media == image[21]
      && br.hiddenSector == LeUint(image[28..32])
      && br.totalSector32 == LeUint(image[32..36])
      && br.fatSize32 == image[36] as int + 0x100 * image[37] as int + 0x1_0000 * image[38] as int + 0x100_0000 * image[39] as int
      && br.rootDirCluster == LeUint(image[44..48])
      && br.fileSystemInfo == image[48] as int + 0x100 * image[49] as int
      && br.bootRecordBackupSec == image[50] as int + 0x100 * image[51] as int
      && br.volumeId == LeUint(image[67..71])
      && br.volumeLabel == image[71..82] && |br.volumeLabel| == 11
      && br.fileSystemType == image[82..90] && |br.fileSystemType| == 8
      && br.mediaType == MediaType(image[21])
  {
    SectorSlices(image);
    LeUint16(image[11..13]);
    LeUint16(image[14..16]);
    LeUint16(image[48..50]);
    LeUint16(image[50..52]);
    LeUint32(image[36..40]);
  }

  /** The field ranges of sector 0 are the same bytes of the image. */
  lemma SectorSlices(image: seq<Byte>)
    requires |image| >= SectorSize
    ensures var b := image[..SectorSize];
      && b[11..13] == image[11..13] && b[14..16] == image[14..16] && b[36..40] == image[36..40]
      && b[48..50] == image[48..50] && b[50..52] == image[50..52]
      && b[28..32] == image[28..32] && b[32..36] == image[32..36] && b[44..48] == image[44..48]
      && b[67..71] == image[67..71] && b[71..82] == image[71..82] && b[82..90] == image[82..90]
  {
  }

  /** A signed boot sector whose label and type are ASCII, as "NO NAME" and "FAT32", parses. */
  lemma AsciiTextParses(image: seq<Byte>)
    requires HasBootSignature(image)
    requires forall i :: 71 <= i < 90 ==> image[i] < 0x80
    ensures ParseBootRecord(image).Ok?
  {
    AsciiIsUtf8(image[71..82]);
    AsciiIsUtf8(image[82..90]);
  }

  /** A volume label starting with a CP949 Hangul syllable stops the run. */
  lemma HangulLabelRejected(image: seq<Byte>)
    requires HasBootSignature(image) && image[71] == 0xB0 && image[72] == 0xA1
    ensures ParseBootRecord(image) == Err(NotUtf8Text)
  {
    assert image[71..82] == [0xB0, 0xA1] + image[73..82];
    Cp949HangulIsNotUtf8(image[73..82]);
  }
}
