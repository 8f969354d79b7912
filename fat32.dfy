/**
 * The FAT32 object: constructing it parses the boot record, the FSInfo
 * sector and the FAT header in that order, then carves the unallocated
 * clusters. A failed parse ends the run before anything after it; a failed
 * probe ends the carving, after the hits already found.
 */
module Fat32 {
  import opened Bytes
  import opened Wrappers
  import opened Image
  import opened BootRecordParser
  import opened FsInfoParser
  import opened FatArea
  import opened Carver

  /** Everything a run establishes, in the order the tool prints it. */
  datatype Report = Report(boot: BootRecord, fsInfo: FsInfo, fat: FatHeader, carve: Carve)

  /** FAT32(file_name) on an image already in memory. */
  method Analyze(image: seq<Byte>) returns (r: Result<Report, Error>)
    ensures ParseBootRecord(image).Err? ==> r == Err(ParseBootRecord(image).error)
    ensures ParseBootRecord(image).Ok? && ParseFsInfo(image).Err? ==> r == Err(ParseFsInfo(image).error)
    ensures ParseBootRecord(image).Ok? && ParseFsInfo(image).Ok? ==>
      var boot := ParseBootRecord(image).value;
      var fat := ParseFat(image, boot.reservedSectorCount);
      && (fat.Err? ==> r == Err(fat.error))
      && (fat.Ok? ==> r.Ok? && r.value.boot == boot && r.value.fsInfo == ParseFsInfo(image).value && r.value.fat == fat.value)
    ensures r.Ok? ==>
      var boot, fs := r.value.boot, r.value.fsInfo;
      r.value.carve == Carved(ProbeOf(image), fs.nextFreeCluster, FindUnallocatedSector(boot, fs), boot.sectorPerCluster, ClusterCount(fs))
  {
    var boot :- ParseBootRecord(image);
    var fs :- ParseFsInfo(image);
    var fat :- ParseFat(image, boot.reservedSectorCount);
    var hits, failure := CarvingUnallocated(ProbeOf(image), boot, fs);
    return Ok(Report(boot, fs, fat, Carve(hits, failure)));
  }
}
