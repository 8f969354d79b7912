# FAT32 unallocated-cluster carver, modelled in Dafny

The modelled program opens a FAT32 volume image and works through it in four steps:

- It parses the boot record (sector 0), the FSInfo sector (sector 1) and the header of the first FAT.
- It walks the clusters from the FSInfo "next free cluster" up to the number held in the FSInfo "free cluster count".
- It classifies the first 16 bytes of each cluster by file signature.
- A ZIP or Office signature hands over to a small ZIP inspector. That inspector either reports the stored file name and extension of the first local file header, or tells a Word, PowerPoint or Excel package apart by the part names in a 20-sector window.

The model is total:

- The image is a sequence of bytes addressed in fixed 512-byte sectors.
- Every way a modelled run can end early is a value of `Image.Error`:
  - a missing boot signature;
  - a volume label or file system type that is not UTF-8, which `.decode("utf-8")` rejects while the boot record is printed;
  - a bad FSInfo sector;
  - a buffer too short for `struct.unpack` or for indexing;
  - a seek to a negative offset.
- The parsers return `Result` values.
- The carving scan is a method with a loop, proved against the recursive specification `Carver.Carved`.
- The top-level constructor is `Fat32.Analyze`.

Lookups are by the text of Python's `hex()`. The tables are the dictionary literals as they stand, keyed by `hex()` text (`HexText.Hex`). Next to each table is the table of numbers it amounts to. The two are proved to agree key length by key length, and `Classifier.ClassifyByText` carries this agreement over to the whole classifier. The example lemmas of `Classifier` are stated about that number-table form (`Classifier.ClassifyByValue`), which `ClassifyByText` shows equal to `GetFileFormat`. Two consequences are proved:

- Six entries can never match, because `hex()` writes no leading zeros and the MPG key is not hex: `Signatures.UnmatchableKeys`, `Classifier.LowFirstByteNeverReported`.
- The duplicated RIFF key resolves to "WAV": `Classifier.RiffIsWav`.

Three behaviours of the code worth noting:

- `read_sectors` near the end of the image returns the bytes that exist instead of failing. A short buffer fails later, in `struct.unpack`.
- An error while classifying a cluster is not local to that cluster. The exception ends the whole run, after the hits already printed (`Carver.ScanFailure`).
- The ZIP extension comes from `os.path.splitext`, not from a plain split at the final dot. So a leading dot or a dot in a directory name starts no extension.

Office detection uses `"marker" in str(file_data)`. The model searches the bytes themselves, read as text one character per byte. The two searches agree:

- No marker contains a backslash or a quote.
- Every escape that `str()` writes begins with a backslash.
- The only escape letter a marker starts with is `x`, and an `\x` escape is followed by hex digits, never by the `l` of `xl/worksheets`.
- No marker starts on the two hex digits of an `\xNN` escape, because its first letter (`w`, `p` or `x`) is not a hex digit.

## Model

| member | source | states |
|---|---|---|
| Image.ReadSectors | FAT32_CARVING.py:19-21 | fails exactly for a negative sector (NegativeSeek); otherwise returns min(count·512, bytes left) bytes, byte i being the image byte at sector·512 + i |
| Image.ReadSectorsSlice | FAT32_CARVING.py:19-21 | a read that starts inside the image is the contiguous slice of the image at sector·512 |
| Bytes.LeRoundTrip | FAT32_CARVING.py:32-44 | decoding the little-endian bytes of n gives back n |
| Bytes.LeBytesRoundTrip | FAT32_CARVING.py:32-44 | encoding a decoded little-endian field gives back its bytes, so the decoding is one-to-one |
| Bytes.BeRoundTrip | FAT32_CARVING.py:126-130 | decoding the big-endian bytes of n gives back n |
| Bytes.BeBytesRoundTrip | FAT32_CARVING.py:126-130 | encoding a decoded big-endian field gives back its bytes |
| Bytes.BeUintIs | FAT32_CARVING.py:27-28 | a big-endian field equals a constant exactly when its bytes are the constant's bytes |
| BootRecordParser.MediaType | FAT32_CARVING.py:48-54 | "DISK" exactly for 0xF8; "FLOPPY DISK" exactly for 0xF0, 0xF9, 0xFC-0xFF; "" exactly for every other byte |
| BootRecordParser.ParseBootRecord | FAT32_CARVING.py:24-70 | succeeds exactly when sector 0 is whole, bytes 510, 511 are 0x55, 0xAA, and the label (bytes 71-81) and type (bytes 82-89) are well-formed UTF-8; a short image is ShortRead, a wrong signature NotFat32Image, text that does not decode NotUtf8Text |
| BootRecordParser.AsciiTextParses | FAT32_CARVING.py:24-70 | a signed boot sector whose label and type bytes are ASCII always parses |
| BootRecordParser.HangulLabelRejected | FAT32_CARVING.py:69 | a signed boot sector whose label starts with the CP949 bytes B0 A1 fails with NotUtf8Text |
| Utf8.LeadLength | FAT32_CARVING.py:69-70 | the length of the well-formed sequence at the start of the bytes is at most 4, and such a sequence never starts with a continuation byte; DecodeEncodes and EncodeDecodes show it accepts exactly the encodings of scalar values |
| Utf8.Encode | FAT32_CARVING.py:69-70 | the reference encoder: the shortest form, 1 byte below U+0080, 2 below U+0800, 4 from U+10000, otherwise 3 |
| Utf8.Decode | FAT32_CARVING.py:69-70 | the code point a well-formed sequence stands for is a Unicode scalar value: never a surrogate, never above U+10FFFF |
| Utf8.DecodeEncodes | FAT32_CARVING.py:69-70 | every sequence the decoder accepts is exactly the encoding of the scalar value it decodes to, so overlong forms are rejected |
| Utf8.EncodeDecodes | FAT32_CARVING.py:69-70 | decoding the encoding of a scalar value gives that value back |
| Utf8.ThreeByteDecodes | FAT32_CARVING.py:69-70 | the three-byte case of DecodeEncodes |
| Utf8.FourByteDecodes | FAT32_CARVING.py:69-70 | the four-byte case of DecodeEncodes |
| Utf8.ThreeByteRoundTrip | FAT32_CARVING.py:69-70 | the three-byte case of EncodeDecodes |
| Utf8.FourByteRoundTrip | FAT32_CARVING.py:69-70 | the four-byte case of EncodeDecodes |
| Utf8.EncodeIsUtf8 | FAT32_CARVING.py:69-70 | the encoding of every Unicode scalar value is exactly one well-formed sequence, so the decoder accepts it |
| Utf8.ThreeByteEncoding | FAT32_CARVING.py:69-70 | a scalar value from U+0800 to U+FFFF, surrogates excepted, encodes to one three-byte sequence |
| Utf8.FourByteEncoding | FAT32_CARVING.py:69-70 | a scalar value from U+10000 to U+10FFFF encodes to one four-byte sequence |
| Utf8.LeadLengthOwnBytes | FAT32_CARVING.py:69-70 | the sequence found at the start of a text is well-formed on its own, so IsUtf8 cuts text into whole scalar encodings |
| Utf8.LeadLengthExtends | FAT32_CARVING.py:69-70 | a well-formed sequence is still found, with the same length, when more text follows it |
| Utf8.AsciiIsUtf8 | FAT32_CARVING.py:69-70 | ASCII bytes always decode |
| Utf8.ContinuationFirstIsNotUtf8 | FAT32_CARVING.py:69-70 | bytes that start with a continuation byte never decode |
| Utf8.Cp949HangulIsNotUtf8 | FAT32_CARVING.py:69 | CP949 Hangul text such as B0 A1 never decodes |
| BootRecordParser.BootRecordFields | FAT32_CARVING.py:32-54 | each BPB field is the little-endian value of its fixed byte range (e.g. reserved = b14 + 256·b15), the label and type strings are bytes 71-81 and 82-89, the media type classifies byte 21 |
| FsInfoParser.ParseFsInfo | FAT32_CARVING.py:73-85 | succeeds exactly when sector 1 is whole and holds "RRaA" at 0, "rrAa" at 484 and 00 00 55 AA at 508; otherwise ShortRead or NotFsInfo; the counts are the little-endian words at 488 and 492 of sector 1 |
| FsInfoParser.LeadSignatureBytes | FAT32_CARVING.py:76-80 | the lead word read big-endian is 0x52526141 exactly when its bytes are 52 52 61 41 |
| FsInfoParser.StructSignatureBytes | FAT32_CARVING.py:77-80 | the struct word read big-endian is 0x72724161 exactly when its bytes are 72 72 41 61 |
| FsInfoParser.TrailSignatureBytes | FAT32_CARVING.py:78-80 | the trail word read big-endian is 0x000055AA exactly when its bytes are 00 00 55 AA |
| FatArea.ParseFat | FAT32_CARVING.py:92-96 | succeeds exactly when the image holds 8 bytes at sector reserved_sector_count, else ShortRead; the two fields are the little-endian words there, each below 2^32 |
| Carver.FindUnallocatedSector | FAT32_CARVING.py:103-105 | with two FATs the sector is the layout's first sector of the next free cluster; from cluster 2 on it lies past the reserved region and two FATs |
| Carver.UnallocatedSectorLayout | FAT32_CARVING.py:103-105 | the hard-wired "two FATs" start sector equals the layout's first sector of the next free cluster exactly when the volume has two FATs or empty FATs |
| Carver.ProbeSignature | FAT32_CARVING.py:115-116 | the classified bytes are the first 16 bytes of the sector, or as many as the image still holds |
| Carver.ClusterProbe | FAT32_CARVING.py:115-116 | a negative sector fails with NegativeSeek; fewer than 8 bytes at the sector fail with ShortRead |
| Carver.ClusterCount | FAT32_CARVING.py:114 | no cluster is visited exactly when free < next; otherwise the last cluster visited is the free-cluster count |
| Carver.Reported | FAT32_CARVING.py:117 | Python's truth test: a reported answer holds a label, and a non-empty label is reported |
| Carver.Carved | FAT32_CARVING.py:108-120 | the scan specification: after k clusters there are at most k hits |
| Carver.CarvingUnallocated | FAT32_CARVING.py:108-120 | the two-counter loop (sector = base + (cluster − next)·spc) produces exactly the hits and failure of Carved over ClusterCount clusters, that is max(0, free − next + 1) |
| Carver.FailureSticks | FAT32_CARVING.py:114-120 | once a step fails, later clusters change nothing |
| Carver.HitsAscending | FAT32_CARVING.py:114-120 | hits lie in next ... next + k − 1 and come out in strictly ascending cluster order |
| Carver.HitsSound | FAT32_CARVING.py:114-118 | every hit is a cluster whose probe answered with that non-empty label |
| Carver.ScanFailure | FAT32_CARVING.py:114-120 | a scan without failure saw only good answers; a failed scan carries the error of its first bad answer |
| Carver.ScanComplete | FAT32_CARVING.py:114-118 | every labelled cluster before the first bad answer is among the hits |
| Carver.PngClusterReported | FAT32_CARVING.py:115-116 | a cluster whose first sector starts with the PNG header is reported as "PNG" |
| Carver.ReportedIsSome | FAT32_CARVING.py:117 | a probe's answer passes the truth test exactly when it carries a label |
| HexText.Hex | FAT32_CARVING.py:149 | hex(n) is "0x" and lowercase hex digits with no leading zero |
| HexText.HexRoundTrip | FAT32_CARVING.py:149 | hex(n) read back as a hex number is n |
| HexText.HexMatches | FAT32_CARVING.py:149-164 | a key equals hex(n) exactly when it is canonical hex text denoting n |
| Signatures.Key2 | FAT32_CARVING.py:126 | the 2-byte key is below 2^16 |
| Signatures.Key3 | FAT32_CARVING.py:127 | the 3-byte key is below 2^24 |
| Signatures.Key4 | FAT32_CARVING.py:128 | the 4-byte key is below 2^32 |
| Signatures.Key6 | FAT32_CARVING.py:129 | the 6-byte key is below 2^48 |
| Signatures.Key8 | FAT32_CARVING.py:130 | the 8-byte key is below 2^64 |
| Signatures.KeysAreBigEndianPrefixes | FAT32_CARVING.py:126-130 | each key, including the 3- and 6-byte keys built by shifting, is the big-endian value of the first 2, 3, 4, 6 or 8 bytes |
| Signatures.KeyBytes | FAT32_CARVING.py:126-130 | the 2-, 3-, 4-, 6- and 8-byte keys as weighted sums of the signature bytes |
| Signatures.UnmatchableKeys | FAT32_CARVING.py:138-147 | hex(n) is never the ICO, CUR, EMF, MPG, IMG or MP4 key |
| Signatures.BmpKey | FAT32_CARVING.py:132 | hex(n) is the BMP key exactly when n = 0x424d |
| Signatures.TiffGzipKeys | FAT32_CARVING.py:134 | hex(n) is a TIFF or the GZ key exactly when n is that number |
| Signatures.CompressedAudioKeys | FAT32_CARVING.py:134-136 | hex(n) is the TAR.Z, BZ2 or MP3 key exactly when n is that number |
| Signatures.FlashKeys | FAT32_CARVING.py:135 | hex(n) is an SWF key exactly when n is that number |
| Signatures.JpegKeys | FAT32_CARVING.py:138-139 | hex(n) is a JPG key exactly when n is that number |
| Signatures.WmfPdfKeys | FAT32_CARVING.py:139-140 | hex(n) is the WMF or PDF key exactly when n is that number |
| Signatures.ArchiveRiffKeys | FAT32_CARVING.py:140-141 | hex(n) is the ALZ, ZIP or RIFF key exactly when n is that number |
| Signatures.GifKeys | FAT32_CARVING.py:143 | hex(n) is a GIF key exactly when n is that number |
| Signatures.SevenZipJarKeys | FAT32_CARVING.py:143-144 | hex(n) is the 7Z or 6-byte JAR key exactly when n is that number |
| Signatures.PngKey | FAT32_CARVING.py:146 | hex(n) is the PNG key exactly when n is that number |
| Signatures.EpsKey | FAT32_CARVING.py:146 | hex(n) is the EPS key exactly when n is that number |
| Signatures.OfficeKey | FAT32_CARVING.py:147 | hex(n) is the Office key exactly when n is that number |
| Signatures.JarKey | FAT32_CARVING.py:147 | hex(n) is the 8-byte JAR key exactly when n is that number |
| Signatures.HwpKey | FAT32_CARVING.py:147 | hex(n) is the HWP key exactly when n is that number |
| Signatures.Sig2Agrees | FAT32_CARVING.py:132 | the 2-byte table finds hex(n) exactly when its number table finds n, with the same label |
| Signatures.Sig3Agrees | FAT32_CARVING.py:134-136 | the same agreement for the 3-byte table |
| Signatures.Sig4Agrees | FAT32_CARVING.py:138-141 | the same agreement for the 4-byte table, whose number table lacks the five unmatchable entries (ICO, CUR, EMF, MPG, IMG) and maps RIFF to WAV |
| Signatures.Sig4Lookup | FAT32_CARVING.py:138-141 | every number-table entry of the 4-byte table has hex() text in the literal with the same label |
| Signatures.Sig4Labels | FAT32_CARVING.py:138-141 | the literal's labels for the matchable 4-byte keys; the later "WAV" replaces "AVI" |
| Signatures.Sig6Agrees | FAT32_CARVING.py:143-144 | the same agreement for the 6-byte table |
| Signatures.Sig8Agrees | FAT32_CARVING.py:146-147 | the same agreement for the 8-byte table, whose number table lacks MP4 |
| Classifier.GetFileFormat | FAT32_CARVING.py:125-166 | fewer than 8 signature bytes fail with ShortRead |
| Classifier.ClassifyByValue | FAT32_CARVING.py:149-166 | the cascade over the number tables; it fails only where the ZIP inspector fails |
| Classifier.ClassifyByText | FAT32_CARVING.py:149-166 | looking keys up by hex() text classifies every signature as comparing the numbers does |
| Classifier.InspectorLabelsNonEmpty | FAT32_CARVING.py:175-183 | every label the ZIP inspector returns is non-empty |
| Classifier.HitsAreNonEmpty | FAT32_CARVING.py:149-166 | every label the classifier returns is non-empty |
| Classifier.LowFirstByteNeverReported | FAT32_CARVING.py:138-166 | a signature whose first byte is below 0x1F is never classified |
| Classifier.LowKeys | FAT32_CARVING.py:126-130 | a first byte below 0x1F bounds every key below 0x1F followed by zero bytes |
| Classifier.RiffIsWav | FAT32_CARVING.py:156-160 | a RIFF header is classified "WAV" |
| Classifier.PngIsPng | FAT32_CARVING.py:149-153 | the PNG header is classified "PNG" |
| Classifier.JarBeforeZip | FAT32_CARVING.py:149-158 | 50 4B 03 04 14 00 08 00 is classified "JAR", not sent down the 4-byte ZIP path |
| Classifier.OfficeGoesToInspector | FAT32_CARVING.py:149-151 | 50 4B 03 04 14 00 06 00 is the ZIP inspector's answer in Office mode |
| Classifier.ZipGoesToInspector | FAT32_CARVING.py:149-158 | any other 50 4B 03 04 header (tail neither 14 00 06 00 nor 14 00 08 00) is the ZIP inspector's answer in plain mode |
| Classifier.OfficeJarTails | FAT32_CARVING.py:147 | the Office and JAR tails read big-endian are those numbers exactly when their bytes are 14 00 06 00 and 14 00 08 00 |
| ZipInspector.Text | FAT32_CARVING.py:173 | one character per byte, with the byte as its code |
| ZipInspector.RFind | FAT32_CARVING.py:183 | the last index holding the character, or −1: that index holds it and no later one does |
| ZipInspector.SplitExt | FAT32_CARVING.py:183 | root + ext is the path; a non-empty ext is a dot followed by no dot or slash, with a non-dot before it in the last component; an empty ext means every candidate dot has only dots before it |
| ZipInspector.SplitExtUnique | FAT32_CARVING.py:183 | any split meeting those conditions is the one splitext returns |
| ZipInspector.Upper | FAT32_CARVING.py:183 | each character is upper-cased, length kept |
| ZipInspector.DropDots | FAT32_CARVING.py:183 | the result holds no dot and is no longer than the input; a lone dot becomes empty and any other lone character is kept |
| ZipInspector.DropDotsAppend | FAT32_CARVING.py:183 | removing dots distributes over concatenation; with DropDots' one-character cases it fixes str.replace(".", "") on every text |
| ZipInspector.NoDotsKept | FAT32_CARVING.py:183 | removing dots from text without dots changes nothing |
| ZipInspector.ExtensionShape | FAT32_CARVING.py:183 | the extension column holds no dot, slash or lower-case letter, and is the upper-cased text after splitext's dot, or empty |
| ZipInspector.ExtensionOfPlainName | FAT32_CARVING.py:183 | "stem.ext" has extension column EXT |
| ZipInspector.HiddenFileHasNoExtension | FAT32_CARVING.py:183 | ".profile"-style names have an empty extension column |
| ZipInspector.DotInDirectoryOnly | FAT32_CARVING.py:183 | a dot in a directory name starts no extension |
| ZipInspector.Extension | FAT32_CARVING.py:183 | the extension column is no longer than the name and holds no dot and no lower-case letter |
| ZipInspector.ZipLabel | FAT32_CARVING.py:183 | the plain-mode label is the prefix, the stored name, the separator " >\t< " and the extension column, in that order |
| ZipInspector.OfficeKind | FAT32_CARVING.py:175-181 | DOCX, PPTX, XLSX for the first of "word/document", "ppt/slides", "xl/worksheets" present, each exactly under that condition, else none |
| ZipInspector.GetFileInZip | FAT32_CARVING.py:169-183 | fails exactly for a negative sector (NegativeSeek), a window shorter than 28 bytes, or a non-empty name that does not fit in the window (ShortRead) |
| ZipInspector.PlainReport | FAT32_CARVING.py:170-183 | with a complete header, plain mode reports "ZIP >\n \t< " + name + " >\t< " + extension column of the stored name |
| ZipInspector.OfficeReport | FAT32_CARVING.py:170-181 | with a complete header, Office mode reports the kind of the whole window |
| ZipInspector.LongNameNeverFits | FAT32_CARVING.py:170-173 | a name longer than 10210 bytes always fails with ShortRead |
| Fat32.Analyze | FAT32_CARVING.py:6-16 | parses boot record, FSInfo and FAT in that order, the first failure being the result; on success the report holds the three parses and the scan of Carved over the image |

## Left out

- File I/O. The image is an in-memory byte sequence. Opening the file and its failure path (FAT32_CARVING.py:8-11) are not modelled.
- Printing, and the exit status of `sys.exit`. Printed fields are the values returned. Printed hits are the `Hit` sequence. A fatal exit is an `Error` value.
- Command-line handling in `__main__` (FAT32_CARVING.py:186-192).
- `hex()` of the FAT words, and the text the volume label and type decode to. They are only printed, so the model keeps the raw bytes. Whether the decoding fails is modelled (`NotUtf8Text`).
- Exception kinds are merged. `IndexError` and `struct.error` on short buffers are both `ShortRead`. The exception from a negative seek is `NegativeSeek`. The `UnicodeDecodeError` of the boot record's text is `NotUtf8Text`.
- ZipInspector.Text / ZipInspector.GetFileInZip: reads the stored name one character per byte, where the source decodes it as EUC-KR. It therefore never fails on a name that is not valid EUC-KR, and a two-byte character counts as two characters.
- ZipInspector.SplitExt: follows `posixpath.splitext`, the `os.path` of POSIX systems. On Windows, `os.path` is `ntpath`, where `\` also separates path components and a drive prefix such as `C:` is split off first; that variant is not modelled.
- ZipInspector.Upper: upper-cases only ASCII letters. Python's `str.upper` also maps other letters and can lengthen text such as "ß".
- ZipInspector.OfficeKind: searches the window's bytes as text rather than the text of `str(file_data)`. The two searches agree for these markers, for the reason given above.
- Carver.CarvingUnallocated: takes the per-cluster read-and-classify step as a parameter. `Fat32.Analyze` passes `ProbeOf(image)`, which is `ClusterProbe` on the image.
