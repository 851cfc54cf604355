/** The uploaded archive as the upload handler sees it (batchRoutes.js
    lines 33-63): its entries, and the choice of the mapping entry. */
module Archive {
  import opened Wrappers
  import opened JsText
  import opened Csv

  /** What a stored file reads as to each library the handlers hand it to:
      its UTF-8 text, the first sheet of the spreadsheet reader (None: the
      reader throws), and the widths of its PDF pages (None: loading the
      document or embedding the QR image into it throws). */
  datatype Content = Content(text: string, sheet: Option<seq<Row>>, pdf: Option<seq<real>>)

  datatype Entry = Entry(name: string, isDirectory: bool, content: Content)

  /** `/\.xlsx?$/i` or `/\.csv$/i` (line 38). */
  predicate IsUploadMappingName(name: string) {
    EndsWithCi(name, ".xlsx") || EndsWithCi(name, ".xls") || EndsWithCi(name, ".csv")
  }

  /** `zip.getEntries().filter(e => !e.isDirectory)` (line 34). */
  function FileEntries(entries: seq<Entry>): seq<Entry> {
    Filter(entries, (e: Entry) => !e.isDirectory)
  }

  /** `entries.map(e => e.entryName)` (line 69). */
  function EntryNames(files: seq<Entry>): (names: seq<string>)
    ensures |names| == |files|
    ensures forall i :: 0 <= i < |files| ==> names[i] == files[i].name
  {
    seq(|files|, i requires 0 <= i < |files| => files[i].name)
  }

  /** The mapping entry of line 37: the first file entry with a spreadsheet
      or CSV extension. */
  function FindMappingEntry(files: seq<Entry>): Option<Entry> {
    match Find(files, (e: Entry) => IsUploadMappingName(e.name))
    case None => None
    case Some(i) => Some(files[i])
  }

  /** The mapping entry is the first entry of the archive, in archive order,
      that is not a directory and has a spreadsheet or CSV extension. */
  lemma MappingEntryIsFirst(entries: seq<Entry>)
    ensures FindMappingEntry(FileEntries(entries)).None? <==>
      forall j :: 0 <= j < |entries| ==> entries[j].isDirectory || !IsUploadMappingName(entries[j].name)
    ensures FindMappingEntry(FileEntries(entries)).Some? ==>
      exists i :: 0 <= i < |entries| && entries[i] == FindMappingEntry(FileEntries(entries)).value
        && !entries[i].isDirectory && IsUploadMappingName(entries[i].name)
        && forall j :: 0 <= j < i ==> entries[j].isDirectory || !IsUploadMappingName(entries[j].name)
  {
    var q := (e: Entry) => !e.isDirectory;
    var p := (e: Entry) => IsUploadMappingName(e.name);
    var both := (e: Entry) => q(e) && p(e);
    FindInFilter(entries, q, p);
    match Find(entries, both)
    case None =>
      assert forall j :: 0 <= j < |entries| ==> !both(entries[j]);
    case Some(i) =>
      assert forall j :: 0 <= j < i ==> !both(entries[j]);
  }

  /** The rows of the mapping entry (lines 49-63): CSV by extension, else
      the spreadsheet reader; None when the handler throws on the payload. */
  function EntryRows(e: Entry): Option<seq<Row>> {
    if EndsWithCi(e.name, ".csv") then CsvRows(e.content.text) else e.content.sheet
  }
}
