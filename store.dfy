/** The two entry points of the batch routes over the batch collection:
    `/upload-zip` (batchRoutes.js lines 29-126), which validates an archive
    and creates a batch, and `/start-issuance` (lines 132-236), which runs
    issuance on a stored batch. */
module Store {
  import opened Wrappers
  import opened JsText
  import opened Csv
  import opened Archive
  import opened Validator
  import opened Issuance

  /** The uploaded archive: the name multer stored it under, and its entries
      (None: the archive cannot be opened). */
  datatype Upload = Upload(storedName: string, entries: Option<seq<Entry>>)

  /** The error responses of the upload. */
  datatype UploadError =
    | NoFile
    | UnreadableArchive
    | NoMappingFile
    | UnreadableMapping
    | LimitExceeded(maxLimit: int, total: nat)

  datatype Summary = Summary(total: nat, valid: nat, invalid: nat, estimatedSeconds: nat, chunks: seq<seq<string>>)

  datatype UploadReply = UploadReply(batchId: string, summary: Summary)

  /** The file entries and mapping rows of an upload (lines 31-63), or the
      error the handler answers before it counts rows. */
  function UploadRows(file: Option<Upload>): Result<(seq<Entry>, seq<Row>), UploadError> {
    match file
    case None => Err(NoFile)
    case Some(u) =>
      match u.entries
      case None => Err(UnreadableArchive)
      case Some(entries) =>
        var files := FileEntries(entries);
        match FindMappingEntry(files)
        case None => Err(NoMappingFile)
        case Some(e) =>
          match EntryRows(e)
          case None => Err(UnreadableMapping)
          case Some(rows) => Ok((files, rows))
  }

  /** Lines 31-63: open the archive, pick the mapping entry and read its
      rows, CSV by extension and otherwise as a spreadsheet. This runs the
      reader's loop (`ParseCsv`); `UploadRows` is its specification, which
      the contract of `UploadZip` is stated in. */
  method ReadUpload(file: Option<Upload>) returns (read: Result<(seq<Entry>, seq<Row>), UploadError>)
    ensures read == UploadRows(file)
  {
    if file.None? {
      return Err(NoFile);
    }
    var upload := file.value;
    if upload.entries.None? {
      return Err(UnreadableArchive);
    }
    var files := FileEntries(upload.entries.value);
    var mapEntry := FindMappingEntry(files);
    if mapEntry.None? {
      return Err(NoMappingFile);
    }
    var e := mapEntry.value;
    if EndsWithCi(e.name, ".csv") {
      var parsed := ParseCsv(e.content.text);
      if parsed.None? {
        return Err(UnreadableMapping);
      }
      return Ok((files, parsed.value));
    }
    if e.content.sheet.None? {
      return Err(UnreadableMapping);
    }
    return Ok((files, e.content.sheet.value));
  }

  /** `req.body.projectId || null`. */
  function ProjectRef(projectId: JsValue): Option<string> {
    if Truthy(projectId) then Some(projectId.s) else None
  }

  /** The answer to `/start-issuance`. */
  datatype StartReply = Started | BatchNotFound | ServerError

  /** The batch collection. */
  class BatchStore {
    var batches: map<string, Batch>

    /** Every batch is stored under its own id, and its valid and invalid
        counts add up to its row count. */
    ghost predicate Valid()
      reads this
    {
      forall k :: k in batches ==>
        batches[k].id == k && batches[k].validCount + batches[k].invalidCount == batches[k].total
    }

    constructor ()
      ensures Valid() && batches == map[]
    {
      batches := map[];
    }

    /** `/upload-zip`. The upload is refused, and no batch is created, when
        there is no file, the archive or its mapping cannot be read, it has no
        mapping entry, or it has more than `maxLimit` rows; the limit error
        reports the row count. Otherwise one new batch is stored under
        `newId` (a fresh id, as the database generates one), with status
        `validated`, no results and counts that add up, and the reply carries
        those counts, the estimate and the chunk plan of the valid filenames. */
    method UploadZip(file: Option<Upload>, projectId: JsValue, maxLimit: int, newId: string)
      returns (res: Result<UploadReply, UploadError>)
      requires Valid()
      requires newId !in batches
      modifies this
      ensures Valid()
      ensures UploadRows(file).Err? ==> res == Err(UploadRows(file).error) && batches == old(batches)
      ensures UploadRows(file).Ok? && |UploadRows(file).value.1| > maxLimit ==>
        res == Err(LimitExceeded(maxLimit, |UploadRows(file).value.1|)) && batches == old(batches)
      ensures res.Ok? <==> UploadRows(file).Ok? && |UploadRows(file).value.1| <= maxLimit
      ensures res.Ok? ==> newId in batches
      ensures res.Ok? && newId in batches ==>
        var rows := UploadRows(file).value.1;
        var names := EntryNames(UploadRows(file).value.0);
        var valid := Valids(rows, names);
        var b := batches[newId];
        && fresh(b)
        && batches == old(batches)[newId := b]
        && b.projectId == ProjectRef(projectId) && b.originalZip == file.value.storedName
        && b.total == |rows| && b.validCount == |valid| && b.invalidCount == |Invalids(rows, names)|
        && b.validCount + b.invalidCount == b.total
        && b.status == Validated && b.results == []
        && res.value.batchId == newId
        && res.value.summary.total == b.total
        && res.value.summary.valid == b.validCount
        && res.value.summary.invalid == b.invalidCount
        && res.value.summary.estimatedSeconds == EstimatedSeconds(|valid|)
        && IsChunkPlan(res.value.summary.chunks, Filenames(valid))
    {
      var read := ReadUpload(file);
      if read.Err? {
        return Err(read.error);
      }
      var (files, rows) := read.value;
      if |rows| > maxLimit {
        return Err(LimitExceeded(maxLimit, |rows|));
      }
      var names := EntryNames(files);
      var valid, invalid := Partition(rows, names);
      PartitionCounts(rows, names);
      var b := new Batch(newId, ProjectRef(projectId), file.value.storedName, |rows|, |valid|, |invalid|);
      batches := batches[newId := b];
      var estimate := EstimatedSeconds(|valid|);
      var chunks := BuildChunks(valid);
      res := Ok(UploadReply(newId, Summary(|rows|, |valid|, |invalid|, estimate, chunks)));
    }

    /** `/start-issuance`: an unknown id is answered "not found" and nothing
        changes; otherwise that batch, and no other, goes through issuance,
        and the answer is success exactly when the run completed. */
    method StartIssuance(batchId: string, env: Env) returns (reply: StartReply, events: seq<Event>, stamps: seq<Stamp>)
      requires Valid()
      modifies if batchId in batches then {batches[batchId]} else {}
      ensures batchId !in batches ==> reply == BatchNotFound && events == [] && stamps == []
      ensures batchId in batches ==>
        var b := batches[batchId];
        var run := IssueRun(batchId, b.projectId, env);
        && (reply == Started <==> !run.aborted)
        && (reply == ServerError <==> run.aborted)
        && b.status == (if run.aborted then Processing else Completed)
        && b.results == (if run.aborted then old(b.results) else run.items)
        && events == Progress(batchId, run.items, MappingCount(env)) + (if run.aborted then [] else [Done(batchId, run.items)])
        && stamps == run.stamps
    {
      if batchId !in batches {
        return BatchNotFound, [], [];
      }
      var b := batches[batchId];
      var ok;
      ok, events, stamps := b.StartIssuance(env);
      reply := if ok then Started else ServerError;
    }
  }

  // ---------------------------------------------------------------------
  // where the upload and issuance read the same archive differently
  // ---------------------------------------------------------------------

  /** A row whose filename sits under the `fileName` header is valid at
      upload, but issuance resolves no filename for it and the whole run
      throws. */
  lemma FileNameHeaderOnlyAtUpload(batchId: string, proj: Option<Project>, env: Env)
    ensures IsValidRow(map["fileName" := "a.pdf"], ["a.pdf"])
    ensures IssueRow(batchId, proj, map["fileName" := "a.pdf"], env) == Abort
  {
    var row: Row := map["fileName" := "a.pdf"];
    assert Fields(row, UploadFileKeys)[2] == Str("a.pdf");
    ResolveFirstNonEmpty(row, UploadFileKeys);
    ResolveFirstNonEmpty(row, IssueFileKeys);
    assert !Truthy(IssueFilename(row));
    assert Fields(row, IssueFileKeys)[2] == Undefined;
  }

  /** An archive whose mapping file is `.xls` is validated against that file,
      but issuance does not recognise `.xls` outside the conventional name
      and falls back to the PDF listing. */
  lemma XlsMappingOnlyAtUpload(c: Content, d: Content)
    ensures FindMappingEntry([Entry("data.xls", false, c), Entry("a.pdf", false, d)]) == Some(Entry("data.xls", false, c))
    ensures ChooseMappingFile(["data.xls", "a.pdf"]) == None
  {
    XlsPdfNames();
    assert forall f :: f in ["data.xls", "a.pdf"] ==> f == "data.xls" || f == "a.pdf";
  }

  /** How the two handlers classify the names `data.xls` and `a.pdf`. */
  lemma XlsPdfNames()
    ensures IsUploadMappingName("data.xls")
    ensures !IsXlsxName("data.xls") && !IsCsvName("data.xls") && !IsConventionalName("data.xls")
    ensures !IsXlsxName("a.pdf") && !IsCsvName("a.pdf") && !IsConventionalName("a.pdf")
  {
    var xls, pdf := "data.xls", "a.pdf";
    assert IsUploadMappingName(xls) by {
      assert xls[4..] == ".xls";
      assert Lower(".xls") == ".xls";
    }
    assert !IsXlsxName(xls) && !IsCsvName(xls) by {
      assert Lower(xls[3..])[0] == 'a';
      assert Lower(xls[4..])[1] == 'x';
    }
    assert !IsXlsxName(pdf) && !IsCsvName(pdf) by {
      assert Lower(pdf[0..])[0] == 'a';
      assert Lower(pdf[1..])[1] == 'p';
    }
  }
}
