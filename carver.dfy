/**
 * carving_unallocated: a forward scan over the clusters from the FSInfo
 * next-free cluster up to the number the FSInfo free-cluster count holds.
 * Each cluster's first sector is read and its first 16 bytes classified;
 * a cluster with a label is reported as a hit, in scan order. An error while
 * classifying ends the whole run, after the hits already reported.
 */
module Carver {
  import opened Bytes
  import opened Wrappers
  import opened Image
  import opened BootRecordParser
  import opened FsInfoParser
  import opened Classifier

  /** Bytes of a cluster's first sector handed to the classifier. */
  const ProbeLength: nat := 16

  /** A reported cluster and the label printed for it. */
  datatype Hit = Hit(cluster: nat, format: string)

  /** What a scan leaves behind: the hits in order and the error that ended it, if any. */
  datatype Carve = Carve(hits: seq<Hit>, failure: Option<Error>)

  /**
   * find_unallocated_sector: the first sector of the next free cluster, with
   * the data region taken to start after exactly two FATs.
   */
  function FindUnallocatedSector(boot: BootRecord, fs: FsInfo): (sector: int)
    ensures boot.numberOfFats == 2 ==> sector == ClusterFirstSector(boot, fs.nextFreeCluster)
    ensures fs.nextFreeCluster >= 2 ==> sector >= boot.reservedSectorCount + 2 * boot.fatSize32
  {
    boot.reservedSectorCount + boot.fatSize32 * 2 + (fs.nextFreeCluster - 2) * boot.sectorPerCluster
  }

  /**
   * The first sector of a cluster in the FAT32 layout: the reserved region,
   * then numberOfFats copies of the FAT, then the data region whose first
   * cluster is cluster 2.
   */
  function ClusterFirstSector(boot: BootRecord, cluster: int): int {
    boot.reservedSectorCount + boot.numberOfFats * boot.fatSize32 + (cluster - 2) * boot.sectorPerCluster
  }

  /**
   * The hard-wired two FATs give the layout's sector exactly when the boot
   * record declares two FATs, or the FATs are empty.
   */
  lemma UnallocatedSectorLayout(boot: BootRecord, fs: FsInfo)
    ensures FindUnallocatedSector(boot, fs) == ClusterFirstSector(boot, fs.nextFreeCluster)
      <==> boot.numberOfFats == 2 || boot.fatSize32 == 0
  {
    var n, f := boot.numberOfFats as int, boot.fatSize32;
    assert n * f - 2 * f == (n - 2) * f;
    if (n - 2) * f == 0 {
      assert n == 2 || f == 0;
    }
  }

  /** Python's truth test on get_file_format's answer: None, 0 and "" are false. */
  predicate Reported(answer: Option<string>)
    ensures Reported(answer) ==> answer.Some?
    ensures answer.Some? && |answer.value| > 0 ==> Reported(answer)
  {
    answer.Some? && answer.value != ""
  }

  /**
   * The bytes classified for the cluster starting at a sector: the first
   * 16 bytes of that sector, or as many as the image still holds.
   */
  function ProbeSignature(image: seq<Byte>, sector: nat): (signature: seq<Byte>)
    ensures var o := Offset(sector);
      && |signature| == (if o >= |image| then 0 else Min(ProbeLength, |image| - o))
      && (o < |image| ==> signature == image[o .. o + |signature|])
  {
    var space := ReadSectors(image, sector, 1).value;
    space[..Min(ProbeLength, |space|)]
  }

  /** One step of the scan: read the cluster's first sector and classify its first 16 bytes. */
  function ClusterProbe(image: seq<Byte>, sector: int): (r: Result<Option<string>, Error>)
    ensures sector < 0 ==> r == Err(NegativeSeek)
    ensures sector >= 0 && |image| < Offset(sector) + SignatureLength ==> r == Err(ShortRead)
  {
    if sector < 0 then Err(NegativeSeek)
    else GetFileFormat(image, ProbeSignature(image, sector), sector)
  }

  /** The number of clusters the scan visits: next, next + 1, ..., free. */
  function ClusterCount(fs: FsInfo): (count: nat)
    ensures count == 0 <==> fs.freeClusterCount < fs.nextFreeCluster
    ensures count > 0 ==> fs.nextFreeCluster + count - 1 == fs.freeClusterCount
  {
    if fs.freeClusterCount >= fs.nextFreeCluster then fs.freeClusterCount - fs.nextFreeCluster + 1 else 0
  }

  /** What the scan learns about the cluster whose first sector is given. */
  type Probe = int -> Result<Option<string>, Error>

  /** The probe of the carver: ClusterProbe on the image. */
  function ProbeOf(image: seq<Byte>): Probe {
    sector => ClusterProbe(image, sector)
  }

  /**
   * The scan after its first k steps, starting at cluster first whose first
   * sector is base, each cluster spc sectors further on.
   */
  function Carved(probe: Probe, first: nat, base: int, spc: nat, k: nat): (c: Carve)
    ensures |c.hits| <= k
  {
    if k == 0 then Carve([], None)
    else
      var prev := Carved(probe, first, base, spc, k - 1);
      if prev.failure.Some? then prev
      else
        match probe(base + (k - 1) * spc)
        case Err(e) => Carve(prev.hits, Some(e))
        case Ok(answer) =>
          if Reported(answer) then Carve(prev.hits + [Hit(first + k - 1, answer.value)], None) else prev
  }

  /**
   * carving_unallocated: cluster and sector advance together, by one cluster
   * and by one cluster's sectors, while the cluster number is at most the
   * free-cluster count. The read-and-classify step of each cluster is the
   * probe (ProbeOf(image) in a run of the tool).
   */
  method CarvingUnallocated(probe: Probe, boot: BootRecord, fs: FsInfo) returns (hits: seq<Hit>, failure: Option<Error>)
    ensures Carve(hits, failure) ==
      Carved(probe, fs.nextFreeCluster, FindUnallocatedSector(boot, fs), boot.sectorPerCluster, ClusterCount(fs))
  {
    var first, base, spc := fs.nextFreeCluster, FindUnallocatedSector(boot, fs), boot.sectorPerCluster;
    var cluster := first;
    var sector := base;
    hits, failure := [], None;
    while cluster <= fs.freeClusterCount
      invariant first <= cluster && cluster - first <= ClusterCount(fs)
      invariant sector == base + (cluster - first) * spc
      invariant Carve(hits, None) == Carved(probe, first, base, spc, cluster - first)
      decreases fs.freeClusterCount - cluster
    {
      var answer := probe(sector);
      if answer.Err? {
        failure := Some(answer.error);
        FailureSticks(probe, first, base, spc, cluster - first + 1, ClusterCount(fs));
        return;
      }
      if Reported(answer.value) {
        hits := hits + [Hit(cluster, answer.value.value)];
      }
      assert (cluster + 1 - first) * spc == (cluster - first) * spc + spc;
      cluster := cluster + 1;
      sector := sector + spc;
    }
  }

  /** Once a step fails, later steps change nothing. */
  lemma {:induction false} FailureSticks(probe: Probe, first: nat, base: int, spc: nat, k: nat, m: nat)
    requires k <= m && Carved(probe, first, base, spc, k).failure.Some?
    ensures Carved(probe, first, base, spc, m) == Carved(probe, first, base, spc, k)
    decreases m - k
  {
    if k < m {
      FailureSticks(probe, first, base, spc, k, m - 1);
    }
  }

  /** The answer of the probe for the i-th cluster of the scan. */
  function Answer(probe: Probe, base: int, spc: nat, i: nat): Result<Option<string>, Error> {
    probe(base + i * spc)
  }

  /** One step of the scan: the hits grow by the new cluster exactly when its answer carries a label. */
  lemma CarvedStep(probe: Probe, first: nat, base: int, spc: nat, k: nat)
    requires k > 0
    ensures var prev, c, a := Carved(probe, first, base, spc, k - 1), Carved(probe, first, base, spc, k), Answer(probe, base, spc, k - 1);
      && (prev.failure.Some? ==> c == prev)
      && (prev.failure.None? && a.Err? ==> c == Carve(prev.hits, Some(a.error)))
      && (prev.failure.None? && a.Ok? && Reported(a.value) ==> c == Carve(prev.hits + [Hit(first + k - 1, a.value.value)], None))
      && (prev.failure.None? && a.Ok? && !Reported(a.value) ==> c == prev)
  {
  }

  /** Hits come out in strictly ascending cluster order, all within the clusters scanned. */
  lemma {:induction false} HitsAscending(probe: Probe, first: nat, base: int, spc: nat, k: nat)
    ensures var hits := Carved(probe, first, base, spc, k).hits;
      && (forall j :: 0 <= j < |hits| ==> first <= hits[j].cluster < first + k)
      && (forall i, j :: 0 <= i < j < |hits| ==> hits[i].cluster < hits[j].cluster)
  {
    if k > 0 {
      HitsAscending(probe, first, base, spc, k - 1);
      CarvedStep(probe, first, base, spc, k);
    }
  }

  /** Every hit is a cluster whose probe answered with a label, and carries that label. */
  lemma {:induction false} HitsSound(probe: Probe, first: nat, base: int, spc: nat, k: nat)
    ensures var hits := Carved(probe, first, base, spc, k).hits;
      forall j :: 0 <= j < |hits| ==>
        && first <= hits[j].cluster < first + k
        && Answer(probe, base, spc, hits[j].cluster - first) == Ok(Some(hits[j].format))
        && hits[j].format != ""
  {
    if k > 0 {
      HitsSound(probe, first, base, spc, k - 1);
      CarvedStep(probe, first, base, spc, k);
    }
  }

  /**
   * A scan that did not fail saw only good answers; a scan that failed
   * stopped at the first bad answer and carries its error.
   */
  lemma {:induction false} ScanFailure(probe: Probe, first: nat, base: int, spc: nat, k: nat)
    ensures var c := Carved(probe, first, base, spc, k);
      && (c.failure.None? ==> forall i :: 0 <= i < k ==> Answer(probe, base, spc, i).Ok?)
      && (c.failure.Some? ==>
            exists i :: 0 <= i < k && Answer(probe, base, spc, i) == Err(c.failure.value)
                        && forall i' :: 0 <= i' < i ==> Answer(probe, base, spc, i').Ok?)
  {
    if k > 0 {
      ScanFailure(probe, first, base, spc, k - 1);
      CarvedStep(probe, first, base, spc, k);
    }
  }

  /** Every cluster before the first bad answer whose answer carries a label is reported. */
  lemma {:induction false} ScanComplete(probe: Probe, first: nat, base: int, spc: nat, k: nat, i: nat)
    requires i < k && forall i' :: 0 <= i' <= i ==> Answer(probe, base, spc, i').Ok?
    requires Reported(Answer(probe, base, spc, i).value)
    ensures Hit(first + i, Answer(probe, base, spc, i).value.value) in Carved(probe, first, base, spc, k).hits
  {
    CarvedStep(probe, first, base, spc, k);
    if i < k - 1 {
      ScanComplete(probe, first, base, spc, k - 1, i);
    } else {
      ScanFailure(probe, first, base, spc, k - 1);
    }
  }

  /** A cluster whose first sector starts with the PNG header is reported as PNG. */
  lemma PngClusterReported(image: seq<Byte>, sector: nat)
    requires Offset(sector) + SignatureLength <= |image|
    requires image[Offset(sector) .. Offset(sector) + 8] == [0x89, 0x50, 0x4E, 0x47, 0x0D, 0x0A, 0x1A, 0x0A]
    ensures ClusterProbe(image, sector) == Ok(Some("PNG"))
  {
    var o := Offset(sector);
    var signature := ProbeSignature(image, sector);
    assert signature[..8] == image[o .. o + 8];
    PngIsPng(image, signature, sector);
    ClassifyByText(image, signature, sector);
  }

  /** A probe's answer passes Python's truth test exactly when it carries a label. */
  lemma ReportedIsSome(image: seq<Byte>, sector: int)
    requires ClusterProbe(image, sector).Ok?
    ensures Reported(ClusterProbe(image, sector).value) <==> ClusterProbe(image, sector).value.Some?
  {
    var signature := ProbeSignature(image, sector);
    HitsAreNonEmpty(image, signature, sector);
    ClassifyByText(image, signature, sector);
  }
}
