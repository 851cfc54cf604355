/** The batch validator of the upload handler (batchRoutes.js lines 65-108):
    the row limit, the valid/invalid partition, the chunk plan and the
    time estimate. */
module Validator {
  import opened JsText
  import opened Csv

  /** An entry of `valid` (line 81). */
  datatype ValidItem = ValidItem(id: JsValue, filename: string)

  /** An entry of `invalid` (line 79). */
  datatype InvalidItem = InvalidItem(row: Row, reason: string)

  const FileMissing: string := "file missing"

  /** `r.filename || r.file || r.fileName || r.File` (line 75). */
  function UploadFilename(row: Row): JsValue {
    Resolve(row, UploadFileKeys)
  }

  /** `r.certificateId || r.id || r.certId` (line 76). */
  function UploadId(row: Row): JsValue {
    Resolve(row, IdKeys)
  }

  /** The test of line 78, negated: a filename resolves and is, exactly, the
      name of some file entry of the archive. */
  predicate IsValidRow(row: Row, names: seq<string>) {
    var f := UploadFilename(row);
    Truthy(f) && f.s in names
  }

  /** The rows the loop of lines 74-83 pushes to `valid`, in row order. */
  function Valids(rows: seq<Row>, names: seq<string>): seq<ValidItem>
    decreases |rows|
  {
    if rows == [] then []
    else
      var last := rows[|rows| - 1];
      Valids(rows[..|rows| - 1], names)
        + (if IsValidRow(last, names) then [ValidItem(UploadId(last), UploadFilename(last).s)] else [])
  }

  /** The rows the loop of lines 74-83 pushes to `invalid`, in row order. */
  function Invalids(rows: seq<Row>, names: seq<string>): seq<InvalidItem>
    decreases |rows|
  {
    if rows == [] then []
    else
      var last := rows[|rows| - 1];
      Invalids(rows[..|rows| - 1], names)
        + (if IsValidRow(last, names) then [] else [InvalidItem(last, FileMissing)])
  }

  /** The partition loop of lines 74-83. */
  method Partition(rows: seq<Row>, names: seq<string>) returns (valid: seq<ValidItem>, invalid: seq<InvalidItem>)
    ensures valid == Valids(rows, names)
    ensures invalid == Invalids(rows, names)
  {
    valid, invalid := [], [];
    for i := 0 to |rows|
      invariant valid == Valids(rows[..i], names)
      invariant invalid == Invalids(rows[..i], names)
    {
      assert rows[..i + 1][..i] == rows[..i];
      var r := rows[i];
      var fname := UploadFilename(r);
      var id := UploadId(r);
      ghost var isValid := IsValidRow(r, names);
      if !Truthy(fname) || fname.s !in names {
        assert !isValid;
        invalid := invalid + [InvalidItem(r, FileMissing)];
      } else {
        valid := valid + [ValidItem(id, fname.s)];
      }
    }
    assert rows[..|rows|] == rows;
  }

  /** Every row lands in exactly one of the two lists: `validCount +
      invalidCount == total`. */
  lemma {:induction false} PartitionCounts(rows: seq<Row>, names: seq<string>)
    ensures |Valids(rows, names)| + |Invalids(rows, names)| == |rows|
    decreases |rows|
  {
    if rows != [] {
      PartitionCounts(rows[..|rows| - 1], names);
    }
  }

  /** A valid item names a file of the archive, exactly; an invalid one
      carries its row, which does not, and the reason "file missing". */
  lemma {:induction false} PartitionSound(rows: seq<Row>, names: seq<string>)
    ensures forall v :: v in Valids(rows, names) ==> v.filename != "" && v.filename in names
    ensures forall w :: w in Invalids(rows, names) ==>
      w.reason == FileMissing && w.row in rows && !IsValidRow(w.row, names)
    decreases |rows|
  {
    if rows != [] {
      var init := rows[..|rows| - 1];
      PartitionSound(init, names);
      assert forall r :: r in init ==> r in rows;
    }
  }

  /** Every row is listed: a valid row as its item in `valid`, any other row
      in `invalid` with the reason "file missing". */
  lemma {:induction false} PartitionComplete(rows: seq<Row>, names: seq<string>, k: nat)
    requires k < |rows|
    ensures IsValidRow(rows[k], names) ==>
      ValidItem(UploadId(rows[k]), UploadFilename(rows[k]).s) in Valids(rows, names)
    ensures !IsValidRow(rows[k], names) ==> InvalidItem(rows[k], FileMissing) in Invalids(rows, names)
    decreases |rows|
  {
    var init := rows[..|rows| - 1];
    if k < |rows| - 1 {
      PartitionComplete(init, names, k);
      assert init[k] == rows[k];
    }
  }

  /** A row naming an archive entry verbatim is valid; take that entry out of
      the archive and the same row is invalid. */
  lemma RemovingTheEntryInvalidates(row: Row, names: seq<string>)
    requires IsValidRow(row, names)
    ensures !IsValidRow(row, Filter(names, (n: string) => n != UploadFilename(row).s))
  {
  }

  // ---------------------------------------------------------------------
  // chunk plan and estimate
  // ---------------------------------------------------------------------

  const ChunkSize: nat := 50

  /** `Math.ceil(v / 50)`. */
  function ChunkCount(v: nat): (c: nat)
    ensures ChunkSize * c >= v
    ensures c > 0 ==> ChunkSize * (c - 1) < v
  {
    (v + ChunkSize - 1) / ChunkSize
  }

  function Filenames(valid: seq<ValidItem>): (names: seq<string>)
    ensures |names| == |valid|
    ensures forall i :: 0 <= i < |valid| ==> names[i] == valid[i].filename
  {
    seq(|valid|, i requires 0 <= i < |valid| => valid[i].filename)
  }

  function Flatten(chunks: seq<seq<string>>): seq<string>
    decreases |chunks|
  {
    if chunks == [] then [] else Flatten(chunks[..|chunks| - 1]) + chunks[|chunks| - 1]
  }

  /** A chunk plan of `names`: its chunks concatenate to `names` in order,
      there are `ceil(|names| / 50)` of them, each holds 50 names except the
      last, which holds between 1 and 50. */
  ghost predicate IsChunkPlan(chunks: seq<seq<string>>, names: seq<string>) {
    && Flatten(chunks) == names
    && |chunks| == ChunkCount(|names|)
    && (forall k :: 0 <= k < |chunks| ==> 1 <= |chunks[k]| <= ChunkSize)
    && (forall k :: 0 <= k < |chunks| - 1 ==> |chunks[k]| == ChunkSize)
  }

  /** The chunk loop of lines 105-108. */
  method BuildChunks(valid: seq<ValidItem>) returns (chunks: seq<seq<string>>)
    ensures IsChunkPlan(chunks, Filenames(valid))
  {
    ghost var names := Filenames(valid);
    var n := |valid|;
    chunks := [];
    var i := 0;
    while i < n
      invariant i == ChunkSize * |chunks|
      invariant |chunks| > 0 ==> i - ChunkSize < n
      invariant Flatten(chunks) == names[..if i < n then i else n]
      invariant forall k :: 0 <= k < |chunks| ==> 1 <= |chunks[k]| <= ChunkSize
      invariant forall k :: 0 <= k < |chunks| - 1 ==> |chunks[k]| == ChunkSize
      invariant i > n ==> |chunks| > 0
      invariant |chunks| > 0 && i < n ==> |chunks[|chunks| - 1]| == ChunkSize
    {
      var end := if i + ChunkSize < n then i + ChunkSize else n;
      var chunk := Filenames(valid[i..end]);
      assert chunk == names[i..end];
      assert names[..end] == names[..i] + chunk;
      assert (chunks + [chunk])[..|chunks|] == chunks;
      chunks := chunks + [chunk];
      i := i + ChunkSize;
    }
    assert names[..n] == names;
  }

  /** The plan that lines 105-108 build is the only one: two chunk plans of
      the same names are equal. */
  lemma {:induction false} ChunkPlanUnique(a: seq<seq<string>>, b: seq<seq<string>>, names: seq<string>)
    requires IsChunkPlan(a, names) && IsChunkPlan(b, names)
    ensures a == b
  {
    FlattenLength(a);
    FlattenLength(b);
    forall k | 0 <= k < |a|
      ensures a[k] == b[k]
    {
      FlattenAt(a, k);
      FlattenAt(b, k);
    }
  }

  lemma {:induction false} FlattenLength(chunks: seq<seq<string>>)
    requires forall k :: 0 <= k < |chunks| - 1 ==> |chunks[k]| == ChunkSize
    ensures chunks != [] ==> |Flatten(chunks)| == ChunkSize * (|chunks| - 1) + |chunks[|chunks| - 1]|
    decreases |chunks|
  {
    if |chunks| > 1 {
      FlattenLength(chunks[..|chunks| - 1]);
    }
  }

  /** Chunk `k` of a full-chunk prefix sits at offset `50 * k` of the flattening. */
  lemma {:induction false} FlattenAt(chunks: seq<seq<string>>, k: nat)
    requires k < |chunks|
    requires forall j :: 0 <= j < |chunks| - 1 ==> |chunks[j]| == ChunkSize
    ensures ChunkSize * k + |chunks[k]| <= |Flatten(chunks)|
    ensures Flatten(chunks)[ChunkSize * k..ChunkSize * k + |chunks[k]|] == chunks[k]
    decreases |chunks|
  {
    var init := chunks[..|chunks| - 1];
    if k == |chunks| - 1 {
      if k > 0 {
        FlattenLength(init);
      }
    } else {
      FlattenAt(init, k);
      FlattenLength(init);
    }
  }

  /** `Math.round(valid.length * 0.5 + 0.2 * Math.ceil(valid.length / 50))`
      (line 104), in integers: the nearest integer, halves rounded up. */
  function EstimatedSeconds(v: nat): (r: nat)
    ensures (r as real) - 0.5 <= 0.5 * (v as real) + 0.2 * (ChunkCount(v) as real) < (r as real) + 0.5
  {
    (5 * v + 2 * ChunkCount(v) + 5) / 10
  }
}
