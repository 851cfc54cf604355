/** The issuance engine of the `/start-issuance` handler (batchRoutes.js
    lines 132-236): the choice of the mapping file in the extracted
    directory, the PDF-only fallback, the per-row loop that stamps a QR image
    onto each source PDF, the progress events and the batch status. */
module Issuance {
  import opened Wrappers
  import opened JsText
  import opened Csv
  import opened Archive

  /** `batch.status`. */
  datatype Status = Validated | Processing | Completed

  /** One entry of `results` (lines 188 and 213). */
  datatype ResultItem =
    | Failed(id: string, filename: string, reason: string)
    | Issued(id: string, filename: string, url: string)

  const MissingSource: string := "missing source"

  /** The stored QR position of a project; a coordinate may be unset. */
  datatype QrPos = QrPos(x: Option<real>, y: Option<real>)

  /** The project record, as far as issuance reads it. */
  datatype Project = Project(qrPos: Option<QrPos>)

  /** Where `first.drawImage` puts the QR image, in PDF points. */
  datatype Placement = Placement(x: real, y: real, width: real, height: real)

  /** One `drawImage` call: the QR image drawn onto the first page of a file. */
  datatype Stamp = Stamp(filename: string, at: Placement)

  /** What the handler finds around it while it runs:
      `listing` is `fs.readdirSync(tempDir)`; `files` holds what each name
      joined to the extraction directory reads as (a name absent from it
      does not exist); `projects` is the project collection; `qrRefused` holds
      the certificate ids whose verification URL the QR library rejects. */
  datatype Env = Env(
    listing: seq<string>,
    files: map<string, Content>,
    projects: map<string, Project>,
    qrRefused: set<string>)

  /** The events sent to observers: `batch:update` after every row that
      yields a result, `batch:completed` once at the end. */
  datatype Event =
    | Update(batchId: string, issued: nat, total: nat)
    | Done(batchId: string, results: seq<ResultItem>)

  // ---------------------------------------------------------------------
  // choice of the mapping file (lines 148-173)
  // ---------------------------------------------------------------------

  /** `/certificate_map\.(xlsx|csv|xls)/i`: an occurrence anywhere in the name. */
  predicate IsConventionalName(f: string) {
    ContainsCi(f, "certificate_map.xlsx") || ContainsCi(f, "certificate_map.csv") || ContainsCi(f, "certificate_map.xls")
  }

  /** `/\.xlsx$/i`: note that `.xls` alone does not match here. */
  predicate IsXlsxName(f: string) {
    EndsWithCi(f, ".xlsx")
  }

  /** `/\.csv$/i`. */
  predicate IsCsvName(f: string) {
    EndsWithCi(f, ".csv")
  }

  /** `f.toLowerCase().endsWith('.pdf')`. */
  predicate IsPdfName(f: string) {
    EndsWithCi(f, ".pdf")
  }

  /** `x` is the first element of `xs` that satisfies `p`. */
  ghost predicate IsFirst(xs: seq<string>, p: string -> bool, x: string) {
    exists i :: 0 <= i < |xs| && xs[i] == x && p(x) && forall j :: 0 <= j < i ==> !p(xs[j])
  }

  function FindName(xs: seq<string>, p: string -> bool): (r: Option<string>)
    ensures r.Some? ==> IsFirst(xs, p, r.value)
    ensures r.None? ==> forall x :: x in xs ==> !p(x)
  {
    match Find(xs, p)
    case None => None
    case Some(i) => Some(xs[i])
  }

  /** The mapping file of lines 148-150: the first name containing
      `certificate_map.` with a spreadsheet or CSV extension, else the first
      `.xlsx`, else the first `.csv`, in listing order. */
  function ChooseMappingFile(listing: seq<string>): (m: Option<string>)
    ensures m.None? <==> forall f :: f in listing ==> !IsConventionalName(f) && !IsXlsxName(f) && !IsCsvName(f)
    ensures m.Some? ==>
      || IsFirst(listing, IsConventionalName, m.value)
      || ((forall f :: f in listing ==> !IsConventionalName(f))
          && (|| IsFirst(listing, IsXlsxName, m.value)
              || ((forall f :: f in listing ==> !IsXlsxName(f)) && IsFirst(listing, IsCsvName, m.value))))
  {
    var conventional := FindName(listing, IsConventionalName);
    if conventional.Some? then conventional
    else
      var xlsx := FindName(listing, IsXlsxName);
      if xlsx.Some? then xlsx
      else FindName(listing, IsCsvName)
  }

  /** `files.filter(pdf).map((f, i) => ({ certificateId: 'id-' + i, filename: f }))`. */
  function PdfFallback(listing: seq<string>): (rows: seq<Row>)
    ensures |rows| == |Filter(listing, IsPdfName)|
  {
    var pdfs := Filter(listing, IsPdfName);
    seq(|pdfs|, i requires 0 <= i < |pdfs| =>
      map["certificateId" := "id-" + NatToString(i), "filename" := pdfs[i]])
  }

  /** The mappings the loop walks (lines 152-173), or None when the handler
      throws before the loop: the mapping file cannot be read, or it is a
      CSV without a non-empty line, or the spreadsheet reader rejects it. */
  function Mappings(env: Env): Option<seq<Row>> {
    match ChooseMappingFile(env.listing)
    case None => Some(PdfFallback(env.listing))
    case Some(m) =>
      if m !in env.files then None
      else if IsCsvName(m) then CsvRows(env.files[m].text)
      else env.files[m].sheet
  }

  /** Without a mapping file every PDF of the listing becomes one mapping, in
      listing order, whose id is `id-<its position among the PDFs>`. */
  lemma FallbackRows(listing: seq<string>, i: nat)
    requires i < |Filter(listing, IsPdfName)|
    ensures var row := PdfFallback(listing)[i];
      && IssueFilename(row) == Str(Filter(listing, IsPdfName)[i])
      && IssueId(row) == Str("id-" + NatToString(i))
  {
    var pdfs := Filter(listing, IsPdfName);
    var row := PdfFallback(listing)[i];
    assert pdfs[i] in pdfs;
    assert |pdfs[i]| >= 4;
    assert Fields(row, IssueFileKeys)[0] == Str(pdfs[i]);
    assert Fields(row, IdKeys)[0] == Str("id-" + NatToString(i));
  }

  /** The PDF at position `j` of the listing is fallback mapping `i`, where
      `i` counts the PDFs listed before it, and its id is `id-<i>`. */
  lemma FallbackNumbering(listing: seq<string>, j: nat)
    requires j < |listing| && IsPdfName(listing[j])
    ensures var i := |Filter(listing[..j], IsPdfName)|;
      && i < |PdfFallback(listing)|
      && IssueFilename(PdfFallback(listing)[i]) == Str(listing[j])
      && IssueId(PdfFallback(listing)[i]) == Str("id-" + NatToString(i))
  {
    FilterRank(listing, IsPdfName, j);
    FallbackRows(listing, |Filter(listing[..j], IsPdfName)|);
  }

  /** The synthesised ids of the fallback are pairwise distinct. */
  lemma FallbackIdsDistinct(listing: seq<string>, i: nat, j: nat)
    requires i < j < |Filter(listing, IsPdfName)|
    ensures IssueId(PdfFallback(listing)[i]) != IssueId(PdfFallback(listing)[j])
  {
    FallbackRows(listing, i);
    FallbackRows(listing, j);
    var a, b := "id-" + NatToString(i), "id-" + NatToString(j);
    if a == b {
      assert NatToString(i) == a[3..] == b[3..] == NatToString(j);
      NatToStringInjective(i, j);
    }
  }

  // ---------------------------------------------------------------------
  // one row (lines 178-219)
  // ---------------------------------------------------------------------

  /** `item.filename || item.File || item.file` (line 179). */
  function IssueFilename(row: Row): JsValue {
    Resolve(row, IssueFileKeys)
  }

  /** `item.certificateId || item.id || item.certId || fname` (line 180):
      the first id synonym that holds a value, else the filename. */
  function IssueId(row: Row): (id: JsValue)
    ensures Truthy(Resolve(row, IdKeys)) ==> id == Resolve(row, IdKeys)
    ensures !Truthy(Resolve(row, IdKeys)) ==> id == IssueFilename(row)
  {
    OrChainSnoc(Fields(row, IdKeys), IssueFilename(row));
    OrChain(Fields(row, IdKeys) + [IssueFilename(row)])
  }

  /** `proj?.qrPos?.x`. */
  function StoredX(proj: Option<Project>): Option<real> {
    if proj.Some? && proj.value.qrPos.Some? then proj.value.qrPos.value.x else None
  }

  /** `proj?.qrPos?.y`. */
  function StoredY(proj: Option<Project>): Option<real> {
    if proj.Some? && proj.value.qrPos.Some? then proj.value.qrPos.value.y else None
  }

  /** A stored coordinate counts only when it is set and not 0 (`||` treats 0 as false). */
  predicate IsSetCoordinate(c: Option<real>) {
    c.Some? && c.value != 0.0
  }

  const QrSide: real := 100.0
  const QrMargin: real := 40.0

  /** The placement of lines 204-208: the stored coordinates where they are
      set, else 40 points in from the right edge of the first page and 40
      up from its bottom edge; the image is always 100 by 100. */
  function QrPlacement(proj: Option<Project>, pageWidth: real): (p: Placement)
    ensures p.width == QrSide && p.height == QrSide
    ensures IsSetCoordinate(StoredX(proj)) ==> p.x == StoredX(proj).value
    ensures !IsSetCoordinate(StoredX(proj)) ==> p.x + p.width == pageWidth - QrMargin
    ensures IsSetCoordinate(StoredY(proj)) ==> p.y == StoredY(proj).value
    ensures !IsSetCoordinate(StoredY(proj)) ==> p.y == QrMargin
  {
    var x := if IsSetCoordinate(StoredX(proj)) then StoredX(proj).value else pageWidth - QrSide - QrMargin;
    var y := if IsSetCoordinate(StoredY(proj)) then StoredY(proj).value else QrMargin;
    Placement(x, y, QrSide, QrSide)
  }

  /** The project a batch's rows are placed by (line 202). */
  function ProjectOf(projectId: Option<string>, env: Env): Option<Project> {
    if projectId.Some? && projectId.value in env.projects then Some(env.projects[projectId.value]) else None
  }

  /** The download reference of an issued file (line 213). */
  function IssuedUrl(batchId: string, fname: string): string {
    "/uploads/issued/" + batchId + "/" + fname
  }

  /** What one row does: throws (and so ends the whole run), records a
      missing source, or stamps its PDF and records it as issued. */
  datatype RowOutcome =
    | Abort
    | Missing(item: ResultItem)
    | Stamped(item: ResultItem, stamp: Stamp)

  /** One pass of the loop body, lines 179-219. It throws when the QR
      library rejects the id, when no filename resolves (`path.join` with
      `undefined`), when the filename is empty (the path is the extraction
      directory itself, which exists and cannot be read as a file), when the
      PDF cannot be loaded or the image not embedded, and when the document
      has no page. */
  function IssueRow(batchId: string, proj: Option<Project>, row: Row, env: Env): RowOutcome {
    var fname := IssueFilename(row);
    var id := IssueId(row);
    if ToJsString(id) in env.qrRefused then Abort
    else if fname.Undefined? then Abort
    else if fname.s != "" && fname.s !in env.files then Missing(Failed(id.s, fname.s, MissingSource))
    else if fname.s == "" then Abort
    else
      var pdf := env.files[fname.s].pdf;
      if pdf.None? || |pdf.value| == 0 then Abort
      else
        Stamped(Issued(id.s, fname.s, IssuedUrl(batchId, fname.s)),
                Stamp(fname.s, QrPlacement(proj, pdf.value[0])))
  }

  /** A row that yields a result names its file and carries a non-empty id:
      the first id synonym holding a value, else the filename. A missing
      source gives a `failed` result with reason "missing source"; a
      present one an `issued` result pointing into the batch's output
      directory. */
  lemma RowResult(batchId: string, proj: Option<Project>, row: Row, env: Env)
    requires !IssueRow(batchId, proj, row, env).Abort?
    ensures var fname := IssueFilename(row);
      var item := IssueRow(batchId, proj, row, env).item;
      && Truthy(fname) && item.filename == fname.s && item.id != ""
      && item.id == (if Truthy(Resolve(row, IdKeys)) then Resolve(row, IdKeys).s else fname.s)
      && (item.Failed? <==> fname.s !in env.files)
      && (item.Failed? ==> item.reason == MissingSource)
      && (item.Issued? ==> item.url == IssuedUrl(batchId, fname.s))
  {
  }

  // ---------------------------------------------------------------------
  // the run (lines 176-228)
  // ---------------------------------------------------------------------

  /** The results, the stamps and whether the loop threw, after the loop has
      walked some rows. */
  datatype Run = Run(items: seq<ResultItem>, stamps: seq<Stamp>, aborted: bool)

  /** What each row would do, in row order. */
  function Outcomes(batchId: string, proj: Option<Project>, rows: seq<Row>, env: Env): (outs: seq<RowOutcome>)
    ensures |outs| == |rows|
    ensures forall k :: 0 <= k < |rows| ==> outs[k] == IssueRow(batchId, proj, rows[k], env)
  {
    seq(|rows|, k requires 0 <= k < |rows| => IssueRow(batchId, proj, rows[k], env))
  }

  /** The loop of lines 178-222 over the rows' outcomes: results and stamps
      accumulate in order; a throw ends the loop, keeping what was done. */
  function Collect(outs: seq<RowOutcome>): Run
    decreases |outs|
  {
    if outs == [] then Run([], [], false)
    else Extend(Collect(outs[..|outs| - 1]), outs[|outs| - 1])
  }

  /** One more row of the loop: nothing changes after a throw. */
  function Extend(prev: Run, out: RowOutcome): Run {
    if prev.aborted then prev
    else
      match out
      case Abort => prev.(aborted := true)
      case Missing(item) => prev.(items := prev.items + [item])
      case Stamped(item, st) => Run(prev.items + [item], prev.stamps + [st], false)
  }

  lemma CollectStep(outs: seq<RowOutcome>, i: nat)
    requires i < |outs|
    ensures Collect(outs[..i + 1]) == Extend(Collect(outs[..i]), outs[i])
  {
    assert outs[..i + 1][..i] == outs[..i];
  }

  /** One more row that does not throw: its result, and its stamp if any,
      are appended. */
  lemma CollectPush(outs: seq<RowOutcome>, i: nat, items: seq<ResultItem>, stamps: seq<Stamp>)
    requires i < |outs| && !outs[i].Abort?
    requires Collect(outs[..i]) == Run(items, stamps, false)
    ensures Collect(outs[..i + 1])
         == Run(items + [outs[i].item], stamps + (if outs[i].Stamped? then [outs[i].stamp] else []), false)
  {
    CollectStep(outs, i);
  }

  /** A row that throws ends the loop with what was done before it. */
  lemma CollectThrow(outs: seq<RowOutcome>, i: nat, items: seq<ResultItem>, stamps: seq<Stamp>)
    requires i < |outs| && outs[i].Abort?
    requires Collect(outs[..i]) == Run(items, stamps, false)
    ensures Collect(outs) == Run(items, stamps, true)
  {
    CollectStep(outs, i);
    AbortIsFinal(outs, i + 1);
  }

  /** The loop over `rows`. */
  function Attempt(batchId: string, proj: Option<Project>, rows: seq<Row>, env: Env): Run {
    Collect(Outcomes(batchId, proj, rows, env))
  }

  /** Once the loop has thrown, later rows change nothing. */
  lemma {:induction false} AbortIsFinal(outs: seq<RowOutcome>, i: nat)
    requires i <= |outs|
    requires Collect(outs[..i]).aborted
    ensures Collect(outs) == Collect(outs[..i])
    decreases |outs|
  {
    if i < |outs| {
      var init := outs[..|outs| - 1];
      assert init[..i] == outs[..i];
      AbortIsFinal(init, i);
    } else {
      assert outs[..i] == outs;
    }
  }

  /** The loop yields one result per outcome, in order, up to the first
      outcome that throws; it throws exactly when some outcome does, and then
      the outcome after the last result is the one that threw. */
  lemma {:induction false} CollectShape(outs: seq<RowOutcome>)
    ensures var r := Collect(outs);
      && |r.items| <= |outs|
      && (forall k :: 0 <= k < |r.items| ==> !outs[k].Abort? && r.items[k] == outs[k].item)
      && (r.aborted <==> |r.items| < |outs|)
      && (r.aborted ==> outs[|r.items|].Abort?)
    decreases |outs|
  {
    if outs != [] {
      var init := outs[..|outs| - 1];
      CollectShape(init);
      assert forall k :: 0 <= k < |init| ==> init[k] == outs[k];
    }
  }

  /** The files of the issued results, in result order. */
  function IssuedFiles(items: seq<ResultItem>): (files: seq<string>)
    ensures |files| == IssuedCount(items)
    decreases |items|
  {
    if items == [] then []
    else
      var last := items[|items| - 1];
      IssuedFiles(items[..|items| - 1]) + (if last.Issued? then [last.filename] else [])
  }

  /** The files the stamps were drawn on, in drawing order. */
  function StampFiles(stamps: seq<Stamp>): (files: seq<string>)
    ensures |files| == |stamps|
    decreases |stamps|
  {
    if stamps == [] then [] else StampFiles(stamps[..|stamps| - 1]) + [stamps[|stamps| - 1].filename]
  }

  /** When stamped outcomes are exactly the issued ones, each on its own
      file, the stamps are drawn on the issued files, one each, in order. */
  lemma {:induction false} StampsMatchIssued(outs: seq<RowOutcome>)
    requires forall k :: 0 <= k < |outs| ==> (outs[k].Stamped? <==> !outs[k].Abort? && outs[k].item.Issued?)
    requires forall k :: 0 <= k < |outs| && outs[k].Stamped? ==> outs[k].stamp.filename == outs[k].item.filename
    ensures StampFiles(Collect(outs).stamps) == IssuedFiles(Collect(outs).items)
    ensures |Collect(outs).stamps| == IssuedCount(Collect(outs).items)
    decreases |outs|
  {
    if outs != [] {
      var init := outs[..|outs| - 1];
      StampsMatchIssued(init);
      var prev := Collect(init);
      var last := outs[|outs| - 1];
      if !prev.aborted && !last.Abort? {
        var items := prev.items + [last.item];
        assert items[..|items| - 1] == prev.items;
        if last.Stamped? {
          var stamps := prev.stamps + [last.stamp];
          assert stamps[..|stamps| - 1] == prev.stamps;
        }
      }
    }
  }

  /** Every stamp of the loop was drawn by some outcome of it. */
  lemma {:induction false} CollectStampsFrom(outs: seq<RowOutcome>)
    ensures forall st :: st in Collect(outs).stamps ==> exists o :: o in outs && o.Stamped? && o.stamp == st
    decreases |outs|
  {
    if outs != [] {
      var init := outs[..|outs| - 1];
      CollectStampsFrom(init);
      assert forall o :: o in init ==> o in outs;
    }
  }

  /** A stamped row drew its image on its own file's first page, at the
      placement that page's width and the project give. */
  lemma StampedRow(batchId: string, proj: Option<Project>, row: Row, env: Env)
    requires IssueRow(batchId, proj, row, env).Stamped?
    ensures var out := IssueRow(batchId, proj, row, env);
      var f := out.stamp.filename;
      && out.item.Issued? && out.item.filename == f
      && f in env.files && env.files[f].pdf.Some? && |env.files[f].pdf.value| > 0
      && out.stamp.at == QrPlacement(proj, env.files[f].pdf.value[0])
  {
  }

  /** The images a run draws: one on each issued file, in the order of the
      issued results, each on the file's first page at the placement of
      lines 204-208 for that page's width. */
  lemma StampedIffIssued(batchId: string, proj: Option<Project>, rows: seq<Row>, env: Env)
    ensures var r := Attempt(batchId, proj, rows, env);
      && |r.stamps| == IssuedCount(r.items)
      && StampFiles(r.stamps) == IssuedFiles(r.items)
      && forall st :: st in r.stamps ==>
           && st.filename in env.files && env.files[st.filename].pdf.Some?
           && |env.files[st.filename].pdf.value| > 0
           && st.at == QrPlacement(proj, env.files[st.filename].pdf.value[0])
  {
    var outs := Outcomes(batchId, proj, rows, env);
    forall k | 0 <= k < |outs| && outs[k].Stamped?
      ensures outs[k].stamp.filename == outs[k].item.filename
    {
      StampedRow(batchId, proj, rows[k], env);
    }
    StampsMatchIssued(outs);
    CollectStampsFrom(outs);
    forall o | o in outs && o.Stamped?
      ensures o.stamp.filename in env.files && env.files[o.stamp.filename].pdf.Some?
      ensures |env.files[o.stamp.filename].pdf.value| > 0
      ensures o.stamp.at == QrPlacement(proj, env.files[o.stamp.filename].pdf.value[0])
    {
      var k :| 0 <= k < |outs| && outs[k] == o;
      StampedRow(batchId, proj, rows[k], env);
    }
  }

  /** The loop yields one result per row, in row order, up to the first row
      that throws; it throws exactly when some row does. */
  lemma AttemptShape(batchId: string, proj: Option<Project>, rows: seq<Row>, env: Env)
    ensures var r := Attempt(batchId, proj, rows, env);
      && |r.items| <= |rows|
      && (forall k :: 0 <= k < |r.items| ==>
            !IssueRow(batchId, proj, rows[k], env).Abort? && r.items[k] == IssueRow(batchId, proj, rows[k], env).item)
      && (r.aborted <==> |r.items| < |rows|)
      && (r.aborted <==> exists k :: 0 <= k < |rows| && IssueRow(batchId, proj, rows[k], env).Abort?)
  {
    CollectShape(Outcomes(batchId, proj, rows, env));
  }

  /** A run in which no row throws completes with one result per row: rows
      whose source exists are `issued`, the others `failed` with reason
      "missing source". */
  lemma CompleteRun(batchId: string, proj: Option<Project>, rows: seq<Row>, env: Env)
    requires forall k :: 0 <= k < |rows| ==> !IssueRow(batchId, proj, rows[k], env).Abort?
    ensures var r := Attempt(batchId, proj, rows, env);
      && !r.aborted && |r.items| == |rows|
      && forall k :: 0 <= k < |rows| ==>
           && Truthy(IssueFilename(rows[k]))
           && r.items[k].filename == IssueFilename(rows[k]).s
           && (r.items[k].Issued? <==> IssueFilename(rows[k]).s in env.files)
           && (r.items[k].Failed? ==> r.items[k].reason == MissingSource)
  {
    AttemptShape(batchId, proj, rows, env);
    forall k | 0 <= k < |rows|
      ensures Attempt(batchId, proj, rows, env).items[k].filename == IssueFilename(rows[k]).s
    {
      RowResult(batchId, proj, rows[k], env);
    }
  }

  /** A row whose source exists, loads and has a first page, and whose id
      the QR library accepts. */
  predicate SourceReady(row: Row, env: Env) {
    var f := IssueFilename(row);
    && Truthy(f) && f.s in env.files
    && env.files[f.s].pdf.Some? && |env.files[f.s].pdf.value| > 0
    && ToJsString(IssueId(row)) !in env.qrRefused
  }

  /** When every source is ready, every row is issued, with a download
      reference into the batch's output directory, and the issued count
      reaches the number of rows. */
  lemma AllSourcesReady(batchId: string, proj: Option<Project>, rows: seq<Row>, env: Env)
    requires forall k :: 0 <= k < |rows| ==> SourceReady(rows[k], env)
    ensures var r := Attempt(batchId, proj, rows, env);
      && !r.aborted && |r.items| == |rows| && IssuedCount(r.items) == |rows|
      && forall k :: 0 <= k < |rows| ==>
           r.items[k].Issued? && r.items[k].url == IssuedUrl(batchId, r.items[k].filename)
  {
    var r := Attempt(batchId, proj, rows, env);
    forall k | 0 <= k < |rows|
      ensures IssueRow(batchId, proj, rows[k], env).Stamped?
    {
    }
    AttemptShape(batchId, proj, rows, env);
    assert !r.aborted && |r.items| == |rows|;
    forall k | 0 <= k < |rows|
      ensures r.items[k].Issued? && r.items[k].url == IssuedUrl(batchId, r.items[k].filename)
    {
      RowResult(batchId, proj, rows[k], env);
    }
    IssuedCountAll(r.items);
  }

  lemma {:induction false} IssuedCountAll(items: seq<ResultItem>)
    requires forall k :: 0 <= k < |items| ==> items[k].Issued?
    ensures IssuedCount(items) == |items|
    decreases |items|
  {
    if items != [] {
      IssuedCountAll(items[..|items| - 1]);
    }
  }

  /** The whole run of the handler after the status flip: no run at all when
      the mappings cannot be read, else the loop over the mappings. */
  function IssueRun(batchId: string, projectId: Option<string>, env: Env): Run {
    match Mappings(env)
    case None => Run([], [], true)
    case Some(rows) => Attempt(batchId, ProjectOf(projectId, env), rows, env)
  }

  /** `total` in the progress events: `mappings.length`. */
  function MappingCount(env: Env): nat {
    if Mappings(env).Some? then |Mappings(env).value| else 0
  }

  // ---------------------------------------------------------------------
  // progress (lines 189 and 215-219)
  // ---------------------------------------------------------------------

  /** `results.filter(r => r.status === 'issued').length`. */
  function IssuedCount(items: seq<ResultItem>): nat
    decreases |items|
  {
    if items == [] then 0
    else IssuedCount(items[..|items| - 1]) + (if items[|items| - 1].Issued? then 1 else 0)
  }

  /** The `batch:update` events a run emits: one after each result, counting
      the issued results so far. */
  function Progress(batchId: string, items: seq<ResultItem>, total: nat): (evs: seq<Event>)
    ensures |evs| == |items|
  {
    seq(|items|, k requires 0 <= k < |items| => Update(batchId, IssuedCount(items[..k + 1]), total))
  }

  lemma {:induction false} IssuedCountMonotone(items: seq<ResultItem>, j: nat, k: nat)
    requires j <= k <= |items|
    ensures IssuedCount(items[..j]) <= IssuedCount(items[..k]) <= IssuedCount(items[..j]) + (k - j)
    decreases k - j
  {
    if j < k {
      IssuedCountMonotone(items, j, k - 1);
      assert items[..k][..k - 1] == items[..k - 1];
    }
  }

  /** The issued counts of the progress events never decrease, grow by at
      most one per event, and the last one counts all issued results. */
  lemma ProgressMonotone(batchId: string, items: seq<ResultItem>, total: nat, j: nat, k: nat)
    requires j <= k < |items|
    ensures Progress(batchId, items, total)[j].issued <= Progress(batchId, items, total)[k].issued
    ensures Progress(batchId, items, total)[k].issued <= k + 1
    ensures k == |items| - 1 ==> Progress(batchId, items, total)[k].issued == IssuedCount(items)
  {
    ProgressAt(batchId, items, total, j);
    ProgressAt(batchId, items, total, k);
    IssuedCountMonotone(items, j + 1, k + 1);
    IssuedCountMonotone(items, 0, k + 1);
    assert items[..0] == [];
    assert k == |items| - 1 ==> items[..k + 1] == items;
  }

  lemma ProgressAt(batchId: string, items: seq<ResultItem>, total: nat, k: nat)
    requires k < |items|
    ensures Progress(batchId, items, total)[k] == Update(batchId, IssuedCount(items[..k + 1]), total)
  {
  }

  lemma ProgressSnoc(batchId: string, items: seq<ResultItem>, item: ResultItem, total: nat)
    ensures Progress(batchId, items + [item], total)
         == Progress(batchId, items, total) + [Update(batchId, IssuedCount(items + [item]), total)]
  {
    var items' := items + [item];
    var a := Progress(batchId, items', total);
    var b := Progress(batchId, items, total) + [Update(batchId, IssuedCount(items'), total)];
    forall k | 0 <= k < |a|
      ensures a[k] == b[k]
    {
      if k < |items| {
        assert items'[..k + 1] == items[..k + 1];
      } else {
        assert items'[..k + 1] == items';
      }
    }
  }

  // ---------------------------------------------------------------------
  // the batch record
  // ---------------------------------------------------------------------

  /** A batch record (backend/models/Batch.js). Its counts are fixed when
      it is created; issuance changes only its status and results. */
  class Batch {
    const id: string
    const projectId: Option<string>
    const originalZip: string
    const total: nat
    const validCount: nat
    const invalidCount: nat
    var status: Status
    var results: seq<ResultItem>

    constructor (id: string, projectId: Option<string>, originalZip: string,
                 total: nat, validCount: nat, invalidCount: nat)
      ensures this.id == id && this.projectId == projectId && this.originalZip == originalZip
      ensures this.total == total && this.validCount == validCount && this.invalidCount == invalidCount
      ensures status == Validated && results == []
    {
      this.id := id;
      this.projectId := projectId;
      this.originalZip := originalZip;
      this.total := total;
      this.validCount := validCount;
      this.invalidCount := invalidCount;
      status := Validated;
      results := [];
    }

    /** The handler from line 138 on. Whatever the status was, it becomes
        `processing`; then, if the run gets through every mapping, the status
        becomes `completed` and the results are stored. If anything throws,
        the status stays `processing` and the stored results stay as they
        were. The events emitted are one `batch:update` per result produced,
        followed, on completion only, by one `batch:completed`. */
    method StartIssuance(env: Env) returns (ok: bool, events: seq<Event>, stamps: seq<Stamp>)
      modifies this
      ensures var run := IssueRun(id, projectId, env);
        && ok == !run.aborted
        && status == (if ok then Completed else Processing)
        && results == (if ok then run.items else old(results))
        && events == Progress(id, run.items, MappingCount(env)) + (if ok then [Done(id, run.items)] else [])
        && stamps == run.stamps
    {
      status := Processing;
      var read := ReadMappings(env);
      if read.None? {
        return false, [], [];
      }
      var mappings := read.value;
      var proj := ProjectOf(projectId, env);
      var done: seq<ResultItem>;
      ok, done, events, stamps := IssueAll(id, proj, mappings, env);
      if ok {
        status := Completed;
        results := done;
        events := events + [Done(id, done)];
      }
    }
  }

  /** Lines 148-173: the mappings, read from the chosen mapping file or
      synthesised from the PDF names; None when reading them throws. This
      runs the reader's loop (`ParseCsv`); `Mappings` is its specification,
      which the lemmas use. */
  method ReadMappings(env: Env) returns (mappings: Option<seq<Row>>)
    ensures mappings == Mappings(env)
  {
    var mapFile := ChooseMappingFile(env.listing);
    if mapFile.Some? && IsCsvName(mapFile.value) {
      if mapFile.value !in env.files {
        return None;
      }
      mappings := ParseCsv(env.files[mapFile.value].text);
    } else if mapFile.Some? {
      if mapFile.value !in env.files {
        return None;
      }
      mappings := env.files[mapFile.value].sheet;
    } else {
      mappings := Some(PdfFallback(env.listing));
    }
  }

  /** The loop body of lines 179-213 for one mapping, statement by
      statement: whether it throws, pushes a `failed` result, or stamps the
      source and pushes an `issued` one. `IssueRow` is its specification, the
      form the lemmas about runs reason with; keeping the body in a method of
      its own also keeps the proof of the loop small. */
  method IssueOne(batchId: string, proj: Option<Project>, item: Row, env: Env) returns (out: RowOutcome)
    ensures out == IssueRow(batchId, proj, item, env)
  {
    var fname := IssueFilename(item);
    var id := IssueId(item);
    if ToJsString(id) in env.qrRefused || fname.Undefined? {
      return Abort;
    }
    if fname.s != "" && fname.s !in env.files {
      return Missing(Failed(id.s, fname.s, MissingSource));
    }
    if fname.s == "" {
      return Abort;
    }
    var pdf := env.files[fname.s].pdf;
    if pdf.None? || |pdf.value| == 0 {
      return Abort;
    }
    var width := pdf.value[0];
    out := Stamped(Issued(id.s, fname.s, IssuedUrl(batchId, fname.s)), Stamp(fname.s, QrPlacement(proj, width)));
  }

  /** The loop of lines 178-222. `ok` is false when a row threw; `items` are
      the results pushed, `events` the `batch:update` events emitted and
      `stamps` the images drawn, up to that point. */
  method IssueAll(batchId: string, proj: Option<Project>, mappings: seq<Row>, env: Env)
    returns (ok: bool, items: seq<ResultItem>, events: seq<Event>, stamps: seq<Stamp>)
    ensures var run := Attempt(batchId, proj, mappings, env);
      && ok == !run.aborted && items == run.items && stamps == run.stamps
      && events == Progress(batchId, items, |mappings|)
  {
    ghost var outs := Outcomes(batchId, proj, mappings, env);
    items, events, stamps := [], [], [];
    for i := 0 to |mappings|
      invariant Collect(outs[..i]) == Run(items, stamps, false)
      invariant events == Progress(batchId, items, |mappings|)
    {
      var out := IssueOne(batchId, proj, mappings[i], env);
      assert outs[i] == out;
      if out.Abort? {
        CollectThrow(outs, i, items, stamps);
        return false, items, events, stamps;
      }
      CollectPush(outs, i, items, stamps);
      if out.Stamped? {
        stamps := stamps + [out.stamp];
      }
      ProgressSnoc(batchId, items, out.item, |mappings|);
      items := items + [out.item];
      events := events + [Update(batchId, IssuedCount(items), |mappings|)];
    }
    assert outs[..|mappings|] == outs;
    ok := true;
  }
}
