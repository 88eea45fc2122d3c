/**
 * `parseCSV` (dashboard/app.js): the whole text is trimmed, split into
 * lines on `\r?\n`, the first line gives the header names and each later
 * line becomes a record keyed by header. Cells are split on every comma
 * (no quoting) and trimmed.
 */
module Csv {
  import opened Wrappers
  import opened Text

  /** One parsed line: header name to cell, `None` being JavaScript's `undefined`. */
  type Row = map<string, Option<string>>

  /** Removes the `\r` of a `\r\n` line ending. */
  function StripCr(s: string): string {
    if |s| > 0 && s[|s| - 1] == '\r' then s[..|s| - 1] else s
  }

  function StripCrAll(pieces: seq<string>): (ls: seq<string>)
    ensures |ls| == |pieces|
  {
    seq(|pieces|, i requires 0 <= i < |pieces| => StripCr(pieces[i]))
  }

  function TrimAll(pieces: seq<string>): (cs: seq<string>)
    ensures |cs| == |pieces|
  {
    seq(|pieces|, i requires 0 <= i < |pieces| => Trim(pieces[i]))
  }

  /** `text.split(/\r?\n/)`. */
  function Lines(text: string): (ls: seq<string>)
    ensures |ls| == |Split(text, '\n')| >= 1
  {
    StripCrAll(Split(text, '\n'))
  }

  /** `line.split(",").map(c => c.trim())`. */
  function Cells(line: string): (cs: seq<string>)
    ensures |cs| == |Split(line, ',')| >= 1
  {
    TrimAll(Split(line, ','))
  }

  /** `cols[i]`, which is `undefined` past the end. */
  function Cell(cols: seq<string>, i: nat): Option<string> {
    if i < |cols| then Some(cols[i]) else None
  }

  /** Position `i` holds the last occurrence of its header name. */
  predicate LastOccurrence(headers: seq<string>, i: nat)
    requires i < |headers|
  {
    forall j :: i < j < |headers| ==> headers[j] != headers[i]
  }

  /** `headers.forEach((h, i) => (r[h] = cols[i]))`. */
  function BuildRow(headers: seq<string>, cols: seq<string>): Row
    decreases |headers|
  {
    if headers == [] then map[]
    else
      var n := |headers| - 1;
      BuildRow(headers[..n], cols)[headers[n] := Cell(cols, n)]
  }

  /** The record's keys are the header names: cells past the last header are dropped. */
  lemma {:induction false} BuildRowKeys(headers: seq<string>, cols: seq<string>)
    ensures forall h :: h in BuildRow(headers, cols) <==> h in headers
    decreases |headers|
  {
    if headers != [] {
      var n := |headers| - 1;
      BuildRowKeys(headers[..n], cols);
      assert headers == headers[..n] + [headers[n]];
    }
  }

  /**
   * Each header name holds the cell at its last position (a later
   * duplicate overwrites an earlier one); a missing cell is `undefined`.
   */
  lemma {:induction false} BuildRowValue(headers: seq<string>, cols: seq<string>, i: nat)
    requires i < |headers| && LastOccurrence(headers, i)
    ensures headers[i] in BuildRow(headers, cols) && BuildRow(headers, cols)[headers[i]] == Cell(cols, i)
    decreases |headers|
  {
    var n := |headers| - 1;
    if i < n {
      assert headers[n] != headers[i];
      assert LastOccurrence(headers[..n], i);
      BuildRowValue(headers[..n], cols, i);
    }
  }

  /** The header names: the cells of the first line of the trimmed text. */
  function Header(text: string): seq<string> {
    Cells(Lines(Trim(text))[0])
  }

  /** One record per line, each under the same header names. */
  function Records(headers: seq<string>, lines: seq<string>): (rows: seq<Row>)
    ensures |rows| == |lines|
  {
    seq(|lines|, k requires 0 <= k < |lines| => BuildRow(headers, Cells(lines[k])))
  }

  /** `parseCSV(text)`: one record per line after the header line of the trimmed text. */
  function ParseCsv(text: string): (rows: seq<Row>)
    ensures |rows| + 1 == |Split(Trim(text), '\n')|
  {
    Records(Header(text), Lines(Trim(text))[1..])
  }

  /**
   * Each record's value for a header is the trimmed cell at that header's
   * (last) position in its line, or `undefined` when the line is shorter.
   */
  lemma ParseCsvCell(text: string, k: nat, i: nat)
    requires k < |ParseCsv(text)|
    requires i < |Header(text)| && LastOccurrence(Header(text), i)
    ensures forall h :: h in ParseCsv(text)[k] <==> h in Header(text)
    ensures var piece := Split(StripCr(Split(Trim(text), '\n')[k + 1]), ',');
      ParseCsv(text)[k][Header(text)[i]] == if i < |piece| then Some(Trim(piece[i])) else None
  {
    var trimmed := Trim(text);
    var lines := Lines(trimmed);
    var line := lines[k + 1];
    LineAt(trimmed, k + 1);
    var cols := Cells(line);
    CellAt(line, i);
    assert lines[1..][k] == line;
    assert ParseCsv(text)[k] == BuildRow(Header(text), cols);
    BuildRowKeys(Header(text), cols);
    BuildRowValue(Header(text), cols, i);
  }

  lemma LineAt(text: string, k: nat)
    requires k < |Split(text, '\n')|
    ensures Lines(text)[k] == StripCr(Split(text, '\n')[k])
  {
  }

  lemma CellAt(line: string, i: nat)
    ensures var piece := Split(line, ',');
      Cell(Cells(line), i) == if i < |piece| then Some(Trim(piece[i])) else None
  {
  }

  /** Empty or whitespace-only text has no records. */
  lemma ParseCsvBlank(text: string)
    requires AllSpace(text)
    ensures ParseCsv(text) == []
  {
    TrimSpec(text);
  }

  /** Blank lines and spaces at the end of the text produce no records. */
  lemma ParseCsvTrailingBlank(text: string, w: string)
    requires AllSpace(w)
    ensures ParseCsv(text + w) == ParseCsv(text)
  {
    TrimAppendSpace(text, w);
  }
}
