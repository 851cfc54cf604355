/** The mapping parser: the hand-written CSV reader both handlers use
    (batchRoutes.js lines 50-57 and 156-163) and the resolution of the
    filename and certificate id from synonym header names. */
module Csv {
  import opened Wrappers
  import opened JsText

  /** A mapping row: the plain object built from one data line, keyed by
      header name. Rows read from a spreadsheet have the same shape. */
  type Row = map<string, string>

  /** Index of the last occurrence of `h` in `hs`. */
  function LastIndex(hs: seq<string>, h: string): (r: nat)
    requires h in hs
    ensures r < |hs| && hs[r] == h
    ensures forall k :: r < k < |hs| ==> hs[k] != h
  {
    if hs[|hs| - 1] == h then |hs| - 1 else LastIndex(hs[..|hs| - 1], h)
  }

  /** `cols[idx] || ''`: a missing trailing column reads as the empty string. */
  function Cell(cols: seq<string>, idx: nat): string {
    if idx < |cols| then cols[idx] else ""
  }

  /** The object `headers.forEach((h, idx) => obj[h] = cols[idx] || '')`
      leaves: one key per header; for a repeated header the later column wins. */
  function Record(headers: seq<string>, cols: seq<string>): Row {
    map h | h in headers :: Cell(cols, LastIndex(headers, h))
  }

  /** What one more step of the header loop does to the record built so far. */
  lemma RecordSnoc(hs: seq<string>, h: string, cols: seq<string>)
    ensures Record(hs + [h], cols) == Record(hs, cols)[h := Cell(cols, |hs|)]
  {
    var hs' := hs + [h];
    assert LastIndex(hs', h) == |hs|;
    forall g | g in hs && g != h
      ensures LastIndex(hs', g) == LastIndex(hs, g)
    {
      assert hs'[..|hs'| - 1] == hs;
    }
  }

  /** The value the record holds under the header at column `j`, when no
      later column repeats that header. */
  lemma RecordAt(headers: seq<string>, cols: seq<string>, j: nat)
    requires j < |headers|
    requires forall k :: j < k < |headers| ==> headers[k] != headers[j]
    ensures headers[j] in Record(headers, cols)
    ensures Record(headers, cols)[headers[j]] == if j < |cols| then cols[j] else ""
  {
    var r := LastIndex(headers, headers[j]);
    assert r == j;
  }

  /** The non-empty lines of the payload: `split(/\r?\n/).filter(Boolean)`. */
  function CsvLines(text: string): seq<string> {
    NonEmpty(SplitLines(text))
  }

  /** The header line is the first non-empty line of the payload. */
  lemma CsvHeaderLine(text: string, j: nat)
    requires j < |SplitLines(text)| && SplitLines(text)[j] != ""
    requires forall k :: 0 <= k < j ==> SplitLines(text)[k] == ""
    ensures CsvLines(text) != [] && CsvLines(text)[0] == SplitLines(text)[j]
  {
    NonEmptyFirst(SplitLines(text), j);
  }

  /** `lines[0].split(',').map(h => h.trim())`. */
  function Headers(line: string): (hs: seq<string>)
    ensures |hs| == |Split(line, ',')|
    ensures forall i :: 0 <= i < |hs| ==> hs[i] == Trim(Split(line, ',')[i])
  {
    var parts := Split(line, ',');
    seq(|parts|, i requires 0 <= i < |parts| => Trim(parts[i]))
  }

  /** The rows the CSV reader produces, or None when the payload has no
      non-empty line (then `lines[0]` is undefined and the handler throws). */
  function CsvRows(text: string): Option<seq<Row>> {
    var lines := CsvLines(text);
    if |lines| == 0 then None
    else
      Some(RecordsOf(Headers(lines[0]), lines[1..]))
  }

  /** The records of the data lines, one per line, in line order. */
  function RecordsOf(headers: seq<string>, lines: seq<string>): (rows: seq<Row>)
    ensures |rows| == |lines|
  {
    if lines == [] then []
    else RecordsOf(headers, lines[..|lines| - 1]) + [Record(headers, Split(lines[|lines| - 1], ','))]
  }

  /** The header loop `headers.forEach((h, idx) => obj[h] = cols[idx] || '')`. */
  method BuildRecord(headers: seq<string>, cols: seq<string>) returns (obj: Row)
    ensures obj == Record(headers, cols)
  {
    obj := map[];
    var idx := 0;
    while idx < |headers|
      invariant 0 <= idx <= |headers|
      invariant obj == Record(headers[..idx], cols)
    {
      RecordSnoc(headers[..idx], headers[idx], cols);
      assert headers[..idx + 1] == headers[..idx] + [headers[idx]];
      obj := obj[headers[idx] := Cell(cols, idx)];
      idx := idx + 1;
    }
    assert headers[..idx] == headers;
  }

  /** Record `k` is the record of line `k`. */
  lemma {:induction false} RecordsOfAt(headers: seq<string>, lines: seq<string>, k: nat)
    requires k < |lines|
    ensures RecordsOf(headers, lines)[k] == Record(headers, Split(lines[k], ','))
    decreases |lines|
  {
    if k < |lines| - 1 {
      RecordsOfAt(headers, lines[..|lines| - 1], k);
    }
  }

  /** The hand-written CSV reader: one row per non-empty line after the header. */
  method ParseCsv(text: string) returns (rows: Option<seq<Row>>)
    ensures rows == CsvRows(text)
  {
    var lines := CsvLines(text);
    if |lines| == 0 {
      return None;
    }
    var acc := ParseLines(lines);
    rows := Some(acc);
  }

  /** The row loop of the reader over its non-empty lines, the first of
      which holds the headers. */
  method ParseLines(lines: seq<string>) returns (acc: seq<Row>)
    requires |lines| > 0
    ensures acc == RecordsOf(Headers(lines[0]), lines[1..])
  {
    var headers := Headers(lines[0]);
    acc := [];
    var i := 1;
    while i < |lines|
      invariant 1 <= i <= |lines|
      invariant acc == RecordsOf(headers, lines[1..i])
    {
      var obj := BuildRecord(headers, Split(lines[i], ','));
      assert lines[1..i + 1][..i - 1] == lines[1..i];
      acc := acc + [obj];
      i := i + 1;
    }
    assert lines[1..i] == lines[1..];
  }

  /** Every parsed row carries exactly the trimmed header names as keys. */
  lemma CsvRowKeys(text: string, i: nat)
    requires CsvRows(text).Some? && i < |CsvRows(text).value|
    ensures CsvRows(text).value[i].Keys == set h | h in Headers(CsvLines(text)[0])
  {
    var lines := CsvLines(text);
    var hs := Headers(lines[0]);
    var r := Record(hs, Split(lines[i + 1], ','));
    RecordsOfAt(hs, lines[1..], i);
    assert CsvRows(text).value[i] == r;
    assert r.Keys == set h | h in hs;
  }

  /** One row per non-empty line after the header line. */
  lemma CsvRowCount(text: string)
    ensures CsvRows(text).Some? <==> CsvLines(text) != []
    ensures CsvRows(text).Some? ==> |CsvRows(text).value| == |CsvLines(text)| - 1
  {
  }

  // ---------------------------------------------------------------------
  // synonym resolution
  // ---------------------------------------------------------------------

  /** `r.<key>` on a row object. */
  function Field(row: Row, key: string): JsValue {
    if key in row then Str(row[key]) else Undefined
  }

  function Fields(row: Row, keys: seq<string>): (vs: seq<JsValue>)
    ensures |vs| == |keys|
    ensures forall i :: 0 <= i < |keys| ==> vs[i] == Field(row, keys[i])
  {
    seq(|keys|, i requires 0 <= i < |keys| => Field(row, keys[i]))
  }

  /** `r.k1 || r.k2 || ...` over a list of synonym keys. */
  function Resolve(row: Row, keys: seq<string>): JsValue
    requires |keys| > 0
  {
    OrChain(Fields(row, keys))
  }

  /** The filename synonyms the upload accepts (line 75). */
  const UploadFileKeys: seq<string> := ["filename", "file", "fileName", "File"]
  /** The filename synonyms issuance accepts (line 179). */
  const IssueFileKeys: seq<string> := ["filename", "File", "file"]
  /** The certificate id synonyms both handlers accept (lines 76 and 180). */
  const IdKeys: seq<string> := ["certificateId", "id", "certId"]

  /** Resolution yields a non-empty value exactly when some synonym holds one,
      and then it is the value under the first such synonym. */
  lemma {:induction false} ResolveFirstNonEmpty(row: Row, keys: seq<string>)
    requires |keys| > 0
    ensures Truthy(Resolve(row, keys)) <==> exists i :: 0 <= i < |keys| && keys[i] in row && row[keys[i]] != ""
    ensures Truthy(Resolve(row, keys)) ==>
      exists i :: 0 <= i < |keys| && keys[i] in row && Resolve(row, keys) == Str(row[keys[i]])
              && forall j :: 0 <= j < i ==> keys[j] !in row || row[keys[j]] == ""
  {
    var vs := Fields(row, keys);
    var r := OrChain(vs);
    if Truthy(r) {
      var i :| 0 <= i < |vs| && vs[i] == r && NoneTruthyBefore(vs, i);
      assert keys[i] in row && r == Str(row[keys[i]]);
      forall j | 0 <= j < i ensures keys[j] !in row || row[keys[j]] == "" {
        assert !Truthy(vs[j]);
      }
    } else {
      forall i | 0 <= i < |keys| ensures keys[i] !in row || row[keys[i]] == "" {
        assert !Truthy(vs[i]);
      }
    }
  }
}
