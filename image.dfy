/**
 * The volume image, addressed in fixed 512-byte sectors, and the ways a run
 * of the carver can end early.
 */
module Image {
  import opened Bytes
  import opened Wrappers

  /** Sectors are always 512 bytes for addressing, whatever the boot record says. */
  const SectorSize: nat := 512

  datatype Error =
    | NotFat32Image  // the boot sector lacks 0x55AA at offset 510; the tool exits with status 1
    | NotFsInfo      // one of the three FSInfo signatures is wrong; the tool exits with status 1
    | NotUtf8Text    // the volume label or file system type is not UTF-8; decode raises and the run ends
    | ShortRead      // struct.unpack or indexing met a buffer too short for it; the run ends
    | NegativeSeek   // a seek to a negative byte offset; the run ends

  /** The byte offset of a sector in the image. */
  function Offset(sector: nat): nat {
    sector * SectorSize
  }

  function Min(a: int, b: int): int {
    if a <= b then a else b
  }

  /**
   * read_sectors(fd, sector, count): seek to byte sector * 512 and read
   * count * 512 bytes. A negative offset cannot be sought; a read that runs
   * past the end of the image returns only the bytes that exist.
   */
  function ReadSectors(image: seq<Byte>, sector: int, count: nat): (r: Result<seq<Byte>, Error>)
    ensures r.Err? <==> sector < 0
    ensures r.Err? ==> r.error == NegativeSeek
    ensures r.Ok? ==> |r.value| == if Offset(sector) >= |image| then 0
                                   else Min(count * SectorSize, |image| - Offset(sector))
    ensures r.Ok? ==> forall i :: 0 <= i < |r.value| ==> r.value[i] == image[Offset(sector) + i]
  {
    if sector < 0 then Err(NegativeSeek)
    else
      var start := Offset(sector);
      if start >= |image| then Ok([])
      else Ok(image[start .. Min(start + count * SectorSize, |image|)])
  }

  /** A read that starts inside the image returns a contiguous slice of it. */
  lemma ReadSectorsSlice(image: seq<Byte>, sector: nat, count: nat)
    requires Offset(sector) < |image|
    ensures var data := ReadSectors(image, sector, count).value;
      Offset(sector) + |data| <= |image| && data == image[Offset(sector) .. Offset(sector) + |data|]
  {
  }
}
