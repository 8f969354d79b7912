/**
 * get_file_in_zip: a hit on a ZIP signature re-reads a 20-sector window at
 * the same sector and looks at the first local file header in it. In plain
 * mode it reports the stored file name and its upper-cased extension; in
 * Office mode it looks for the part names that tell a Word, PowerPoint or
 * Excel package apart.
 */
module ZipInspector {
  import opened Bytes
  import opened Wrappers
  import opened Image

  /** The window read at a ZIP hit, in sectors. */
  const WindowSectors: nat := 20
  /** Offset of the 16-bit file name length in a local file header. */
  const NameLengthOffset: nat := 26
  /** Offset of the file name in a local file header. */
  const NameOffset: nat := 30

  /** The label prefix printed before the stored name. */
  const ZipPrefix := "ZIP >\n \t< "
  /** The separator printed between the stored name and its extension. */
  const ExtSeparator := " >\t< "

  /** Bytes read as text one character per byte, with the byte as code point. */
  function Text(bytes: seq<Byte>): (t: string)
    ensures |t| == |bytes| && forall i :: 0 <= i < |t| ==> t[i] as int == bytes[i] as int
  {
    seq(|bytes|, i requires 0 <= i < |bytes| => bytes[i] as char)
  }

  /** needle occurs in haystack starting at index i. */
  predicate OccursAt(haystack: string, needle: string, i: nat) {
    i + |needle| <= |haystack| && haystack[i..i + |needle|] == needle
  }

  /** Python's `needle in haystack` on strings. */
  predicate Contains(haystack: string, needle: string) {
    exists i: nat :: i <= |haystack| && OccursAt(haystack, needle, i)
  }

  /** Python's str.rfind for one character: the last index holding c, or -1. */
  function RFind(s: string, c: char): (i: int)
    ensures -1 <= i < |s|
    ensures i >= 0 ==> s[i] == c
    ensures forall j :: i < j < |s| ==> s[j] != c
  {
    if |s| == 0 then -1
    else if s[|s| - 1] == c then |s| - 1
    else RFind(s[..|s| - 1], c)
  }

  /**
   * posixpath.splitext: the extension is the text from the last '.' on,
   * provided that dot comes after the last '/' and some character of the
   * last path component before it is not a dot; otherwise it is empty.
   */
  function SplitExt(p: string): (parts: (string, string))
    ensures parts.0 + parts.1 == p
    ensures parts.1 != [] ==>
      && parts.1[0] == '.'
      && (forall j :: 1 <= j < |parts.1| ==> parts.1[j] != '.' && parts.1[j] != '/')
      && (exists j :: RFind(p, '/') < j < |parts.0| && parts.0[j] != '.')
    ensures parts.1 == [] ==>
      forall d :: 0 <= d < |p| && p[d] == '.' && (forall j :: d < j < |p| ==> p[j] != '.' && p[j] != '/') ==>
        forall j :: RFind(p, '/') < j < d ==> p[j] == '.'
  {
    var sepIndex := RFind(p, '/');
    var dotIndex := RFind(p, '.');
    if dotIndex > sepIndex && exists j :: sepIndex < j < dotIndex && p[j] != '.' then
      (p[..dotIndex], p[dotIndex..])
    else
      (p, [])
  }

  /** ASCII str.upper on one character. */
  function UpperChar(c: char): char {
    if 'a' <= c <= 'z' then (c as int - 'a' as int + 'A' as int) as char else c
  }

  /** str.upper on ASCII letters; every other character is left alone. */
  function Upper(s: string): (u: string)
    ensures |u| == |s| && forall i :: 0 <= i < |s| ==> u[i] == UpperChar(s[i])
  {
    seq(|s|, i requires 0 <= i < |s| => UpperChar(s[i]))
  }

  /**
   * str.replace(".", ""): the text with every dot removed. With
   * DropDotsAppend and NoDotsKept this determines the result: a dot alone
   * becomes empty, any other character alone is kept, and text is handled
   * piece by piece.
   */
  function DropDots(s: string): (t: string)
    ensures forall i :: 0 <= i < |t| ==> t[i] != '.'
    ensures |t| <= |s|
    ensures |s| == 1 ==> (s[0] == '.' <==> t == []) && (s[0] != '.' ==> t == s)
  {
    if |s| == 0 then []
    else if s[0] == '.' then DropDots(s[1..])
    else [s[0]] + DropDots(s[1..])
  }

  /** The extension column of the report: splitext's extension without its dot, upper-cased. */
  function Extension(name: string): (ext: string)
    ensures |ext| <= |name|
    ensures forall i :: 0 <= i < |ext| ==> ext[i] != '.' && !('a' <= ext[i] <= 'z')
  {
    Upper(DropDots(SplitExt(name).1))
  }

  /** The label of a plain ZIP hit. */
  function ZipLabel(name: string): (text: string)
    ensures |text| == |ZipPrefix| + |name| + |ExtSeparator| + |Extension(name)|
    ensures text[..|ZipPrefix|] == ZipPrefix && text[|ZipPrefix| .. |ZipPrefix| + |name|] == name
    ensures text[|ZipPrefix| + |name| .. |text| - |Extension(name)|] == ExtSeparator
    ensures text[|text| - |Extension(name)| ..] == Extension(name)
  {
    var text := ZipPrefix + name + ExtSeparator + Extension(name);
    assert text == ZipPrefix + name + ExtSeparator + Extension(name);
    text
  }

  /** The Office part names, in the order they are looked for. */
  const WordPart := "word/document"
  const SlidesPart := "ppt/slides"
  const SheetsPart := "xl/worksheets"

  /** Office mode: the first part name found in the window decides the format. */
  function OfficeKind(window: string): (kind: Option<string>)
    ensures kind == Some("DOCX") <==> Contains(window, WordPart)
    ensures kind == Some("PPTX") <==> !Contains(window, WordPart) && Contains(window, SlidesPart)
    ensures kind == Some("XLSX") <==> !Contains(window, WordPart) && !Contains(window, SlidesPart) && Contains(window, SheetsPart)
    ensures kind == None <==> !Contains(window, WordPart) && !Contains(window, SlidesPart) && !Contains(window, SheetsPart)
  {
    if Contains(window, WordPart) then Some("DOCX")
    else if Contains(window, SlidesPart) then Some("PPTX")
    else if Contains(window, SheetsPart) then Some("XLSX")
    else None
  }

  /** How many bytes of the 20-sector window starting at byte start the image holds. */
  function WindowLength(image: seq<Byte>, start: nat): nat {
    if start >= |image| then 0 else Min(WindowSectors * SectorSize, |image| - start)
  }

  /** The name length field of the header at the start of a sector. */
  function NameLength(image: seq<Byte>, sector: nat): nat
    requires WindowLength(image, Offset(sector)) >= NameOffset - 2
  {
    LeUint(image[Offset(sector) + NameLengthOffset .. Offset(sector) + NameLengthOffset + 2])
  }

  /** A non-empty name that does not fit in the window. */
  predicate NameCutShort(image: seq<Byte>, sector: int) {
    && sector >= 0
    && WindowLength(image, Offset(sector)) >= NameOffset - 2
    && NameLength(image, sector) > 0
    && WindowLength(image, Offset(sector)) < NameOffset + NameLength(image, sector)
  }

  /** The stored name, one character per byte. */
  function StoredName(image: seq<Byte>, sector: nat): string
    requires WindowLength(image, Offset(sector)) >= NameOffset - 2 && !NameCutShort(image, sector)
  {
    var start, n := Offset(sector), NameLength(image, sector);
    if n == 0 then "" else Text(image[start + NameOffset .. start + NameOffset + n])
  }

  /**
   * get_file_in_zip(sector, office). The name length at offset 26 must be
   * there, and so must the whole name at offset 30 whenever it is not empty;
   * the name is read in Office mode too, so a truncated header fails in
   * both modes.
   */
  function GetFileInZip(image: seq<Byte>, sector: int, office: bool): (r: Result<Option<string>, Error>)
    ensures r.Err? <==> sector < 0 || WindowLength(image, Offset(sector)) < NameOffset - 2 || NameCutShort(image, sector)
    ensures r.Err? ==> r.error == (if sector < 0 then NegativeSeek else ShortRead)
  {
    if sector < 0 then Err(NegativeSeek)
    else
      var start := Offset(sector);
      var data := ReadSectors(image, sector, WindowSectors).value;
      assert |data| == WindowLength(image, start);
      if |data| < NameLengthOffset + 2 then Err(ShortRead)
      else
        assert data == image[start .. start + |data|];
        SliceOfWindow(image, data, start, NameLengthOffset, NameLengthOffset + 2);
        var nameLength := LeUint(data[NameLengthOffset .. NameLengthOffset + 2]);
        if nameLength > 0 && |data| < NameOffset + nameLength then Err(ShortRead)
        else
          var name :=
            if nameLength == 0 then ""
            else (SliceOfWindow(image, data, start, NameOffset, NameOffset + nameLength);
                  Text(data[NameOffset .. NameOffset + nameLength]));
          if office then Ok(OfficeKind(Text(data)))
          else Ok(Some(ZipLabel(name)))
  }

  lemma SliceOfWindow(image: seq<Byte>, data: seq<Byte>, start: nat, lo: nat, hi: nat)
    requires start + |data| <= |image| && data == image[start .. start + |data|] && lo <= hi <= |data|
    ensures data[lo .. hi] == image[start + lo .. start + hi]
  {
    forall i | 0 <= i < hi - lo
      ensures data[lo .. hi][i] == image[start + lo .. start + hi][i]
    {
      assert data[lo + i] == image[start .. start + |data|][lo + i];
    }
  }

  /** A complete header in plain mode reports the label built from the stored name. */
  lemma PlainReport(image: seq<Byte>, sector: nat)
    requires WindowLength(image, Offset(sector)) >= NameOffset - 2 && !NameCutShort(image, sector)
    ensures GetFileInZip(image, sector, false) == Ok(Some(ZipLabel(StoredName(image, sector))))
  {
    var start := Offset(sector);
    ReadSectorsSlice(image, sector, WindowSectors);
    var data := ReadSectors(image, sector, WindowSectors).value;
    SliceOfWindow(image, data, start, NameLengthOffset, NameLengthOffset + 2);
    var n := NameLength(image, sector);
    assert LeUint(data[NameLengthOffset .. NameLengthOffset + 2]) == n;
    if n > 0 {
      SliceOfWindow(image, data, start, NameOffset, NameOffset + n);
      assert Text(data[NameOffset .. NameOffset + n]) == StoredName(image, sector);
    }
  }

  /** A complete header in Office mode reports the part names found anywhere in the window. */
  lemma OfficeReport(image: seq<Byte>, sector: nat)
    requires WindowLength(image, Offset(sector)) >= NameOffset - 2 && !NameCutShort(image, sector)
    ensures var start := Offset(sector);
      GetFileInZip(image, sector, true) == Ok(OfficeKind(Text(image[start .. start + WindowLength(image, start)])))
  {
    ReadSectorsSlice(image, sector, WindowSectors);
  }

  /**
   * The window holds 10240 bytes, so a name longer than 10210 bytes never
   * fits, however long the image.
   */
  lemma LongNameNeverFits(image: seq<Byte>, sector: nat, office: bool)
    requires WindowLength(image, Offset(sector)) >= NameOffset - 2
    requires NameLength(image, sector) > WindowSectors * SectorSize - NameOffset
    ensures GetFileInZip(image, sector, office) == Err(ShortRead)
  {
  }

  /**
   * splitext's answer is the only split of its kind: any root and
   * extension that put the path back together, where the extension is a
   * dot followed by neither dots nor slashes and the last component has a
   * character other than a dot before it, is the one splitext returns.
   */
  lemma {:induction false} SplitExtUnique(p: string, root: string, ext: string)
    requires root + ext == p
    requires ext != [] && ext[0] == '.' && forall j :: 1 <= j < |ext| ==> ext[j] != '.' && ext[j] != '/'
    requires exists j :: RFind(p, '/') < j < |root| && root[j] != '.'
    ensures SplitExt(p) == (root, ext)
  {
    var k := |root|;
    assert p[k] == '.';
    assert forall j :: k < j < |p| ==> p[j] == ext[j - k];
    var dotIndex := RFind(p, '.');
    assert dotIndex == k;
    assert p[..k] == root && p[k..] == ext;
  }

  /** The extension column never holds a dot, a slash or a lower-case ASCII letter. */
  lemma ExtensionShape(name: string)
    ensures forall i :: 0 <= i < |Extension(name)| ==>
      Extension(name)[i] != '.' && Extension(name)[i] != '/' && !('a' <= Extension(name)[i] <= 'z')
    ensures SplitExt(name).1 != [] ==> Extension(name) == Upper(SplitExt(name).1[1..])
    ensures SplitExt(name).1 == [] ==> Extension(name) == []
  {
    var ext := SplitExt(name).1;
    if ext != [] {
      NoDotsKept(ext[1..]);
      assert DropDots(ext) == DropDots(ext[1..]);
    }
  }

  /** Dropping the dots of a text without dots changes nothing. */
  lemma {:induction false} NoDotsKept(s: string)
    requires forall j :: 0 <= j < |s| ==> s[j] != '.'
    ensures DropDots(s) == s
  {
    if |s| > 0 {
      NoDotsKept(s[1..]);
    }
  }

  /** Removing dots from two texts one after the other removes them from the whole. */
  lemma {:induction false} DropDotsAppend(a: string, b: string)
    ensures DropDots(a + b) == DropDots(a) + DropDots(b)
  {
    if a != [] {
      DropDotsAppend(a[1..], b);
      assert (a + b)[1..] == a[1..] + b;
    } else {
      assert a + b == b;
    }
  }

  /** A name with one dot, not leading, has the text after it as extension. */
  lemma ExtensionOfPlainName(stem: string, ext: string)
    requires stem != [] && forall j :: 0 <= j < |stem| ==> stem[j] != '.' && stem[j] != '/'
    requires forall j :: 0 <= j < |ext| ==> ext[j] != '.' && ext[j] != '/'
    ensures Extension(stem + "." + ext) == Upper(ext)
  {
    var p := stem + "." + ext;
    assert RFind(p, '/') == -1;
    assert stem[0] != '.';
    SplitExtUnique(p, stem, "." + ext);
    ExtensionShape(p);
    assert ("." + ext)[1..] == ext;
  }

  /** A leading dot does not start an extension: ".profile" has none. */
  lemma HiddenFileHasNoExtension(rest: string)
    requires forall j :: 0 <= j < |rest| ==> rest[j] != '.' && rest[j] != '/'
    ensures Extension("." + rest) == ""
  {
    ExtensionShape("." + rest);
  }

  /** A dot in a directory name does not start an extension of the file. */
  lemma DotInDirectoryOnly(dir: string, base: string)
    requires forall j :: 0 <= j < |base| ==> base[j] != '.' && base[j] != '/'
    ensures Extension(dir + "/" + base) == ""
  {
    var p := dir + "/" + base;
    assert p[|dir|] == '/';
    assert forall j :: |dir| < j < |p| ==> p[j] == base[j - |dir| - 1];
    assert RFind(p, '/') == |dir|;
    assert RFind(p, '.') < |dir|;
    ExtensionShape(p);
  }
}
