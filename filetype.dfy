/** The format sniffer: classifies a buffer by its magic prefix and, for ZIP
    containers, by looking for the OPC content-types part among the first
    archive entries (src/filetype.rs). */
module FileTypes {
  import opened Ascii

  datatype FileType = Pdf | Jpg | Png | Docx | Unknown

  /** The ZIP reader's view of a buffer: `None` when the archive cannot be
      opened, otherwise one slot per archive entry holding its name, or `None`
      when that entry cannot be read. The reader itself is not modelled. */
  type ArchiveView = Option<seq<Option<string>>>

  /** `%PDF`, the PDF file header (ISO 32000-1, section 7.5.2). */
  const PDF_MAGIC: seq<Byte> := [0x25, 0x50, 0x44, 0x46]
  /** The JPEG SOI marker `FF D8` followed by the first byte of the next marker
      (ITU-T T.81, Annex B). */
  const JPEG_MAGIC: seq<Byte> := [0xFF, 0xD8, 0xFF]
  /** The PNG signature (ISO/IEC 15948, section 5.2). */
  const PNG_MAGIC: seq<Byte> := [0x89, 0x50, 0x4E, 0x47, 0x0D, 0x0A, 0x1A, 0x0A]
  /** The ZIP local file header signature (PKWARE APPNOTE, section 4.3.7). */
  const ZIP_MAGIC: seq<Byte> := [0x50, 0x4B, 0x03, 0x04]

  /** How many archive entries the sniffer looks at, at most. */
  const ENTRY_SCAN_LIMIT: nat := 10

  /** The part name of the OPC content-types stream (ECMA-376 Part 2). */
  const CONTENT_TYPES_PART: string := "[Content_Types].xml"

  function Min(a: nat, b: nat): nat {
    if a < b then a else b
  }

  /** An archive entry that could be read and is named like the content-types part. */
  predicate IsContentTypesEntry(entry: Option<string>) {
    entry.Some? && EqIgnoreAsciiCase(entry.value, CONTENT_TYPES_PART)
  }

  /** The loop over entry indices `i .. limit`: true as soon as one is the
      content-types part; unreadable entries are skipped. */
  function FindContentTypes(entries: seq<Option<string>>, i: nat, limit: nat): (found: bool)
    requires i <= limit <= |entries|
    ensures found <==> exists j :: i <= j < limit && IsContentTypesEntry(entries[j])
    decreases limit - i
  {
    if i == limit then false
    else if IsContentTypesEntry(entries[i]) then true
    else FindContentTypes(entries, i + 1, limit)
  }

  /** The archive opened and one of its first ENTRY_SCAN_LIMIT entries is the
      content-types part. */
  predicate ListsContentTypes(archive: ArchiveView) {
    archive.Some? &&
    exists j :: 0 <= j < Min(|archive.value|, ENTRY_SCAN_LIMIT) && IsContentTypesEntry(archive.value[j])
  }

  /** `detect_file_type`: the prefix tests in their fixed order, first match
      wins; `archive` is what the ZIP reader reports for `data`. */
  function DetectFileType(data: seq<Byte>, archive: ArchiveView): (t: FileType)
    ensures t == Pdf <==> StartsWith(data, PDF_MAGIC)
    ensures t == Jpg <==> StartsWith(data, JPEG_MAGIC)
    ensures t == Png <==> StartsWith(data, PNG_MAGIC)
    ensures t == Docx <==> StartsWith(data, ZIP_MAGIC) && ListsContentTypes(archive)
    ensures |data| == 0 ==> t == Unknown
  {
    MagicPrefixesExclusive(data);
    if StartsWith(data, PDF_MAGIC) then Pdf
    else if StartsWith(data, JPEG_MAGIC) then Jpg
    else if StartsWith(data, PNG_MAGIC) then Png
    else if StartsWith(data, ZIP_MAGIC) && archive.Some? &&
            FindContentTypes(archive.value, 0, Min(|archive.value|, ENTRY_SCAN_LIMIT))
    then Docx
    else Unknown
  }

  /** The four signatures start with four different bytes, so a buffer starts
      with at most one of them and the order of the tests does not matter. */
  lemma MagicPrefixesExclusive(data: seq<Byte>)
    ensures StartsWith(data, PDF_MAGIC) ==> data[0] == 0x25
    ensures StartsWith(data, JPEG_MAGIC) ==> data[0] == 0xFF
    ensures StartsWith(data, PNG_MAGIC) ==> data[0] == 0x89
    ensures StartsWith(data, ZIP_MAGIC) ==> data[0] == 0x50
  {
    if StartsWith(data, PDF_MAGIC) { assert data[..4][0] == data[0]; }
    if StartsWith(data, JPEG_MAGIC) { assert data[..3][0] == data[0]; }
    if StartsWith(data, PNG_MAGIC) { assert data[..8][0] == data[0]; }
    if StartsWith(data, ZIP_MAGIC) { assert data[..4][0] == data[0]; }
  }

  /** Whatever follows `%PDF`, the buffer is a PDF. */
  lemma PdfHeaderWins(rest: seq<Byte>, archive: ArchiveView)
    ensures DetectFileType(PDF_MAGIC + rest, archive) == Pdf
  {
    assert (PDF_MAGIC + rest)[..|PDF_MAGIC|] == PDF_MAGIC;
  }

  /** Entries from index ENTRY_SCAN_LIMIT on are never looked at: cutting the
      archive listing after them does not change the classification. */
  lemma {:induction false} LaterEntriesIgnored(data: seq<Byte>, entries: seq<Option<string>>)
    requires |entries| > ENTRY_SCAN_LIMIT
    ensures DetectFileType(data, Some(entries)) == DetectFileType(data, Some(entries[..ENTRY_SCAN_LIMIT]))
  {
    var cut := entries[..ENTRY_SCAN_LIMIT];
    assert forall j :: 0 <= j < ENTRY_SCAN_LIMIT ==> cut[j] == entries[j];
    assert ListsContentTypes(Some(entries)) <==> ListsContentTypes(Some(cut));
  }

  /** A ZIP buffer whose content-types part is only the eleventh entry or a
      later one is not a DOCX. */
  lemma ContentTypesTooLateIsUnknown(data: seq<Byte>, entries: seq<Option<string>>)
    requires StartsWith(data, ZIP_MAGIC)
    requires forall j :: 0 <= j < |entries| && j < ENTRY_SCAN_LIMIT ==> !IsContentTypesEntry(entries[j])
    ensures DetectFileType(data, Some(entries)) == Unknown
  {
    MagicPrefixesExclusive(data);
  }

  /** A ZIP buffer the reader cannot open is not an error: it is Unknown. */
  lemma UnopenableArchiveIsUnknown(data: seq<Byte>)
    requires StartsWith(data, ZIP_MAGIC)
    ensures DetectFileType(data, None) == Unknown
  {
    MagicPrefixesExclusive(data);
  }

  /** An entry that cannot be read is skipped, not an error: the search goes
      on, and a later match within the first ENTRY_SCAN_LIMIT entries still
      makes the buffer a DOCX. */
  lemma UnreadableEntrySkipped(data: seq<Byte>, entries: seq<Option<string>>, k: nat, j: nat)
    requires StartsWith(data, ZIP_MAGIC)
    requires k < j < |entries| && j < ENTRY_SCAN_LIMIT
    requires entries[k] == None && IsContentTypesEntry(entries[j])
    ensures DetectFileType(data, Some(entries)) == Docx
  {
  }

  /** The content-types part name is compared ignoring ASCII case. */
  lemma UpperCasePartNameIsDocx(data: seq<Byte>)
    requires StartsWith(data, ZIP_MAGIC)
    ensures DetectFileType(data, Some([None, Some("[CONTENT_TYPES].XML")])) == Docx
  {
    var entries: seq<Option<string>> := [None, Some("[CONTENT_TYPES].XML")];
    assert IsContentTypesEntry(entries[1]);
  }
}
