/**
 * The header of the first File Allocation Table: its first two 32-bit
 * entries, which hold the media type echo and the volume status bits. They
 * are only reported; nothing later depends on them.
 */
module FatArea {
  import opened Bytes
  import opened Wrappers
  import opened Image

  datatype FatHeader = FatHeader(mediaType: nat, partitionStatus: nat)

  /** Decodes the first eight bytes of sector reservedSectorCount, where FAT #1 begins. */
  function ParseFat(image: seq<Byte>, reservedSectorCount: nat): (r: Result<FatHeader, Error>)
    ensures r.Ok? <==> |image| >= Offset(reservedSectorCount) + 8
    ensures r.Err? ==> r.error == ShortRead
    ensures r.Ok? ==>
      var start := Offset(reservedSectorCount);
      && r.value.mediaType == LeUint(image[start .. start + 4])
      && r.value.partitionStatus == LeUint(image[start + 4 .. start + 8])
      && r.value.mediaType < 0x1_0000_0000 && r.value.partitionStatus < 0x1_0000_0000
  {
    var fat := ReadSectors(image, reservedSectorCount, 1).value;
    if |fat| < 8 then Err(ShortRead)
    else
      var start := Offset(reservedSectorCount);
      assert fat[0..4] == image[start .. start + 4] && fat[4..8] == image[start + 4 .. start + 8];
      Ok(FatHeader(mediaType := LeUint(fat[0..4]), partitionStatus := LeUint(fat[4..8])))
  }
}
