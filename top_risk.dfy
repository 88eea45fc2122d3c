/**
 * `downloadTopRisk` and the selection in `renderTopTable` (dashboard/app.js):
 * records are kept when their probability reaches the threshold, ordered
 * by decreasing probability with equal probabilities kept in input order
 * (`Array.prototype.sort` is stable), and written as CSV rows under a fixed
 * header.
 */
module TopRisk {
  import opened Wrappers
  import opened Text
  import opened Customers
  import Csv

  /** Non-increasing probability. */
  predicate SortedDesc(s: seq<Customer>) {
    forall i, j :: 0 <= i < j < |s| ==> s[i].p >= s[j].p
  }

  /** The records whose probability is exactly `v`, in their order in `s`. */
  function WithP(s: seq<Customer>, v: real): seq<Customer>
    decreases |s|
  {
    if s == [] then [] else (if s[0].p == v then [s[0]] else []) + WithP(s[1..], v)
  }

  /** Places `x` after every record of `t` with a strictly larger probability. */
  function Insert(x: Customer, t: seq<Customer>): (r: seq<Customer>)
    ensures |r| == |t| + 1
    ensures multiset(r) == multiset(t) + multiset{x}
    decreases |t|
  {
    if t == [] then [x]
    else if t[0].p > x.p then
      assert t == [t[0]] + t[1..];
      [t[0]] + Insert(x, t[1..])
    else [x] + t
  }

  /** Every record of `s` has probability at most `v`. */
  predicate AllAtMost(s: seq<Customer>, v: real) {
    forall i :: 0 <= i < |s| ==> s[i].p <= v
  }

  lemma {:induction false} InsertAtMost(x: Customer, t: seq<Customer>, v: real)
    requires AllAtMost(t, v) && x.p <= v
    ensures AllAtMost(Insert(x, t), v)
    decreases |t|
  {
    if t != [] && t[0].p > x.p {
      InsertAtMost(x, t[1..], v);
      var r := Insert(x, t);
      assert r[1..] == Insert(x, t[1..]);
    }
  }

  /** A record at least as large as every record of a sorted tail can go in front of it. */
  lemma ConsSorted(h: Customer, tail: seq<Customer>)
    requires SortedDesc(tail) && AllAtMost(tail, h.p)
    ensures SortedDesc([h] + tail)
  {
    var r := [h] + tail;
    forall i, j | 0 <= i < j < |r| ensures r[i].p >= r[j].p {
      assert r[j] == tail[j - 1];
      if i > 0 { assert r[i] == tail[i - 1]; }
    }
  }

  /** The head of a sorted sequence bounds it, and its tail is sorted. */
  lemma SortedHead(t: seq<Customer>)
    requires SortedDesc(t) && t != []
    ensures AllAtMost(t, t[0].p) && AllAtMost(t[1..], t[0].p) && SortedDesc(t[1..])
  {
    assert forall i :: 0 < i < |t| ==> t[0].p >= t[i].p;
    assert forall i :: 0 <= i < |t| - 1 ==> t[1..][i] == t[i + 1];
  }

  /** Inserting into a non-increasing sequence keeps it non-increasing. */
  lemma {:induction false} InsertSorted(x: Customer, t: seq<Customer>)
    requires SortedDesc(t)
    ensures SortedDesc(Insert(x, t))
    decreases |t|
  {
    if t != [] {
      SortedHead(t);
      if t[0].p > x.p {
        InsertSorted(x, t[1..]);
        InsertAtMost(x, t[1..], t[0].p);
        ConsSorted(t[0], Insert(x, t[1..]));
      } else {
        ConsSorted(x, t);
      }
    }
  }

  /**
   * `[...s].sort((a, b) => b.p - a.p)`: a stable insertion sort by
   * decreasing probability; the result is an ordered permutation of `s`.
   */
  function SortDesc(s: seq<Customer>): (r: seq<Customer>)
    ensures |r| == |s|
    ensures multiset(r) == multiset(s)
    ensures SortedDesc(r)
    decreases |s|
  {
    if s == [] then []
    else
      assert s == [s[0]] + s[1..];
      InsertSorted(s[0], SortDesc(s[1..]));
      Insert(s[0], SortDesc(s[1..]))
  }

  lemma WithPCons(x: Customer, t: seq<Customer>, v: real)
    ensures WithP([x] + t, v) == (if x.p == v then [x] else []) + WithP(t, v)
  {
    assert ([x] + t)[1..] == t;
  }

  lemma {:induction false} WithPInsert(x: Customer, t: seq<Customer>, v: real)
    ensures WithP(Insert(x, t), v) == if x.p == v then [x] + WithP(t, v) else WithP(t, v)
    decreases |t|
  {
    if t == [] {
      WithPCons(x, [], v);
    } else if t[0].p > x.p {
      WithPInsert(x, t[1..], v);
      WithPCons(t[0], Insert(x, t[1..]), v);
      WithPCons(t[0], t[1..], v);
      assert [t[0]] + t[1..] == t;
      if x.p == v {
        assert t[0].p != v;
      }
    } else {
      WithPCons(x, t, v);
    }
  }

  /** Stability: among records of equal probability the input order is kept. */
  lemma {:induction false} SortDescStable(s: seq<Customer>, v: real)
    ensures WithP(SortDesc(s), v) == WithP(s, v)
    decreases |s|
  {
    if s != [] {
      SortDescStable(s[1..], v);
      WithPInsert(s[0], SortDesc(s[1..]), v);
    }
  }

  /** `.filter(c => c.p >= threshold)`. */
  function AtLeast(s: seq<Customer>, t: real): (r: seq<Customer>)
    ensures forall c :: multiset(r)[c] == if c.p >= t then multiset(s)[c] else 0
    decreases |s|
  {
    if s == [] then []
    else
      assert s == [s[0]] + s[1..];
      (if s[0].p >= t then [s[0]] else []) + AtLeast(s[1..], t)
  }

  lemma {:induction false} WithPAtLeast(s: seq<Customer>, t: real, v: real)
    ensures WithP(AtLeast(s, t), v) == if v >= t then WithP(s, v) else []
    decreases |s|
  {
    if s != [] {
      WithPAtLeast(s[1..], t, v);
      var head := if s[0].p >= t then [s[0]] else [];
      WithPAppend(head, AtLeast(s[1..], t), v);
    }
  }

  lemma {:induction false} WithPAppend(a: seq<Customer>, b: seq<Customer>, v: real)
    ensures WithP(a + b, v) == WithP(a, v) + WithP(b, v)
    decreases |a|
  {
    if a != [] {
      assert (a + b)[1..] == a[1..] + b;
      WithPAppend(a[1..], b, v);
    } else {
      assert a + b == b;
    }
  }

  /** The records the export writes, in the order it writes them. */
  function TopRiskRows(s: seq<Customer>, t: real): seq<Customer> {
    SortDesc(AtLeast(s, t))
  }

  /**
   * The export holds exactly the records whose probability reaches the
   * threshold (inclusively), each as often as in the input, by decreasing
   * probability, and equal probabilities appear in input order.
   */
  lemma TopRiskRowsSpec(s: seq<Customer>, t: real)
    ensures forall c :: multiset(TopRiskRows(s, t))[c] == if c.p >= t then multiset(s)[c] else 0
    ensures forall c :: c in TopRiskRows(s, t) <==> c in s && c.p >= t
    ensures SortedDesc(TopRiskRows(s, t))
    ensures forall v :: WithP(TopRiskRows(s, t), v) == if v >= t then WithP(s, v) else []
  {
    var r := TopRiskRows(s, t);
    forall c ensures c in r <==> c in s && c.p >= t {
      assert c in r <==> multiset(r)[c] > 0;
      assert c in s <==> multiset(s)[c] > 0;
    }
    forall v ensures WithP(r, v) == if v >= t then WithP(s, v) else [] {
      SortDescStable(AtLeast(s, t), v);
      WithPAtLeast(s, t, v);
    }
  }

  /** A record with probability exactly the threshold is exported. */
  lemma ThresholdInclusive(s: seq<Customer>, t: real, i: int)
    requires 0 <= i < |s| && s[i].p == t
    ensures s[i] in TopRiskRows(s, t)
  {
    TopRiskRowsSpec(s, t);
  }

  function Min(a: int, b: int): int {
    if a <= b then a else b
  }

  /** `[...customers].sort(...).slice(0, 10)` in `renderTopTable`. */
  function TopTen(s: seq<Customer>): seq<Customer> {
    SortDesc(s)[..Min(10, |s|)]
  }

  /**
   * The table shows min(10, n) records of the list, none of them below a
   * record that is left out, in non-increasing order.
   */
  lemma TopTenSpec(s: seq<Customer>)
    ensures |TopTen(s)| == Min(10, |s|)
    ensures multiset(TopTen(s)) <= multiset(s)
    ensures SortedDesc(TopTen(s))
    ensures forall i, y :: 0 <= i < |TopTen(s)| && y in multiset(s) - multiset(TopTen(s)) ==> TopTen(s)[i].p >= y.p
    ensures forall v :: WithP(TopTen(s), v) <= WithP(s, v)
  {
    var sorted := SortDesc(s);
    var n := Min(10, |s|);
    SplitMultiset(sorted, n);
    PrefixSorted(sorted, n);
    DominatesRest(sorted, n);
    forall v ensures WithP(TopTen(s), v) <= WithP(s, v) {
      SortDescStable(s, v);
      WithPPrefix(sorted, n, v);
    }
  }

  /** The records of one probability in a prefix come first among those of the whole list. */
  lemma WithPPrefix(s: seq<Customer>, n: nat, v: real)
    requires n <= |s|
    ensures WithP(s[..n], v) <= WithP(s, v)
  {
    assert s == s[..n] + s[n..];
    WithPAppend(s[..n], s[n..], v);
  }

  lemma SplitMultiset(s: seq<Customer>, n: nat)
    requires n <= |s|
    ensures multiset(s) == multiset(s[..n]) + multiset(s[n..])
    ensures multiset(s) - multiset(s[..n]) == multiset(s[n..])
  {
    assert s == s[..n] + s[n..];
  }

  lemma PrefixSorted(sorted: seq<Customer>, n: nat)
    requires SortedDesc(sorted) && n <= |sorted|
    ensures SortedDesc(sorted[..n])
  {
  }

  /** In a list sorted by descending probability, every record of a prefix is at least every record after it. */
  lemma DominatesRest(sorted: seq<Customer>, n: nat)
    requires SortedDesc(sorted) && n <= |sorted|
    ensures forall i, y :: 0 <= i < n && y in multiset(sorted[n..]) ==> sorted[i].p >= y.p
  {
    forall i, y: Customer | 0 <= i < n && y in multiset(sorted[n..]) ensures sorted[i].p >= y.p {
      var j :| 0 <= j < |sorted[n..]| && sorted[n..][j] == y;
      assert sorted[n + j] == y;
    }
  }

  /** The header line of `top_risk.csv`: "CustomerID,P_Fused,Churn_Predicted". */
  const Header := "CustomerID" + "," + "P_Fused" + "," + "Churn_Predicted"

  /** `${c.id}` in a template literal: `undefined` prints as "undefined". */
  function IdText(id: Option<string>): string {
    match id
    case Some(s) => s
    case None => "undefined"
  }

  /** `${CustomerID},${P_Fused},${Churn_Predicted}` with the flag as 1 or 0. */
  function RowText(c: Customer, show: real -> string): string {
    IdText(c.id) + "," + show(c.p) + "," + FlagText(c.churn)
  }

  function RowTexts(rows: seq<Customer>, show: real -> string): seq<string> {
    seq(|rows|, i requires 0 <= i < |rows| => RowText(rows[i], show))
  }

  /**
   * The text of `top_risk.csv`: the header line, then one row per exported
   * record joined by newlines, with no newline after the last row.
   */
  function TopRiskCsv(s: seq<Customer>, t: real, show: real -> string): string {
    Header + "\n" + Join(RowTexts(TopRiskRows(s, t), show), "\n")
  }

  /** With nothing above the threshold the file is the header line alone. */
  lemma TopRiskCsvEmpty(s: seq<Customer>, t: real, show: real -> string)
    requires forall i :: 0 <= i < |s| ==> s[i].p < t
    ensures TopRiskCsv(s, t, show) == Header + "\n"
  {
    TopRiskRowsSpec(s, t);
    var r := TopRiskRows(s, t);
    assert forall c :: c !in r;
    NothingIn(r);
  }

  lemma NothingIn(r: seq<Customer>)
    requires forall c :: c !in r
    ensures r == []
  {
    forall c ensures multiset(r)[c] == 0 {
      assert c !in r;
    }
    assert multiset(r) == multiset{};
  }

  /** Otherwise it is the header and the rows joined by newlines, ending in a row's churn digit. */
  lemma TopRiskCsvLines(s: seq<Customer>, t: real, show: real -> string)
    requires TopRiskRows(s, t) != []
    ensures TopRiskCsv(s, t, show) == Join([Header] + RowTexts(TopRiskRows(s, t), show), "\n")
    ensures var text := TopRiskCsv(s, t, show); text[|text| - 1] in {'0', '1'}
  {
    CsvOfRows(TopRiskRows(s, t), show);
  }

  lemma CsvOfRows(rows: seq<Customer>, show: real -> string)
    requires rows != []
    ensures Header + "\n" + Join(RowTexts(rows, show), "\n") == Join([Header] + RowTexts(rows, show), "\n")
    ensures var text := Header + "\n" + Join(RowTexts(rows, show), "\n"); text[|text| - 1] in {'0', '1'}
  {
    var ts := RowTexts(rows, show);
    assert ([Header] + ts)[1..] == ts;
    JoinLastChar(ts, "\n");
  }

  lemma {:induction false} JoinLastChar(xs: seq<string>, sep: string)
    requires |xs| > 0 && xs[|xs| - 1] != []
    ensures |Join(xs, sep)| > 0
    ensures Join(xs, sep)[|Join(xs, sep)| - 1] == xs[|xs| - 1][|xs[|xs| - 1]| - 1]
    decreases |xs|
  {
    if |xs| > 1 {
      JoinLastChar(xs[1..], sep);
    }
  }

  /** A cell that survives the trip through `parseCSV` unchanged. */
  predicate PlainCell(s: string) {
    ',' !in s && '\n' !in s && Trim(s) == s
  }

  const Columns := ["CustomerID", "P_Fused", "Churn_Predicted"]

  /** Three comma-free cells joined by commas split back into those cells. */
  lemma CellsThree(a: string, b: string, c: string)
    requires ',' !in a && ',' !in b && ',' !in c
    requires Trim(a) == a && Trim(b) == b && Trim(c) == c
    ensures Csv.Cells(a + "," + b + "," + c) == [a, b, c]
  {
    assert a + "," + b + "," + c == a + [','] + (b + [','] + c);
    SplitAtSep(a, ',', b + [','] + c);
    SplitAtSep(b, ',', c);
    SplitNoSep(c, ',');
  }

  lemma HeaderCells()
    ensures '\n' !in Header && Csv.StripCr(Header) == Header
    ensures Csv.Cells(Header) == Columns
  {
    assert Header[|Header| - 1] == 'd';
    TrimOfTrimmed("CustomerID");
    TrimOfTrimmed("P_Fused");
    TrimOfTrimmed("Churn_Predicted");
    CellsThree("CustomerID", "P_Fused", "Churn_Predicted");
  }

  function FlagText(churn: bool): string {
    if churn then "1" else "0"
  }

  /** What `loadBaseline` rebuilds from the exported row of `c`. */
  function Reread(c: Customer, show: real -> string, parse: FloatParser): Customer {
    Customer(c.id, ToNum(parse, Some(show(c.p))), c.churn)
  }

  /** An exported row is one line: it holds no newline and does not end in a carriage return. */
  lemma RowLine(c: Customer, show: real -> string)
    requires c.id.Some? && PlainCell(c.id.value) && PlainCell(show(c.p))
    ensures '\n' !in RowText(c, show) && Csv.StripCr(RowText(c, show)) == RowText(c, show)
  {
    var text := RowText(c, show);
    assert text == c.id.value + "," + show(c.p) + "," + FlagText(c.churn);
  }

  /** An exported row with plain cells reads back as its record, the probability through `show` and `parse`. */
  lemma ReadRow(c: Customer, show: real -> string, parse: FloatParser)
    requires c.id.Some? && PlainCell(c.id.value) && PlainCell(show(c.p))
    ensures FromCsvRow(parse, Csv.BuildRow(Columns, Csv.Cells(RowText(c, show)))) == Reread(c, show, parse)
  {
    var id, num, flag := c.id.value, show(c.p), FlagText(c.churn);
    var text := RowText(c, show);
    assert text == id + "," + num + "," + flag;
    TrimOfTrimmed(flag);
    CellsThree(id, num, flag);
    var cols := Csv.Cells(text);
    var r := Csv.BuildRow(Columns, cols);
    assert Csv.LastOccurrence(Columns, 0) && Csv.LastOccurrence(Columns, 1) && Csv.LastOccurrence(Columns, 2);
    Csv.BuildRowValue(Columns, cols, 0);
    Csv.BuildRowValue(Columns, cols, 1);
    Csv.BuildRowValue(Columns, cols, 2);
  }

  /** Every record is exported with an id and a probability text that CSV cells carry unchanged. */
  predicate PlainRecords(s: seq<Customer>, show: real -> string) {
    forall i :: 0 <= i < |s| ==> s[i].id.Some? && PlainCell(s[i].id.value) && PlainCell(show(s[i].p))
  }

  lemma ExportedFromInput(s: seq<Customer>, t: real, k: int)
    requires 0 <= k < |TopRiskRows(s, t)|
    ensures TopRiskRows(s, t)[k] in s
  {
    TopRiskRowsSpec(s, t);
    assert TopRiskRows(s, t)[k] in TopRiskRows(s, t);
  }

  /** A non-empty export starts with the header and ends with a digit, so `trim` leaves it alone. */
  lemma ExportTrimmed(s: seq<Customer>, t: real, show: real -> string)
    requires TopRiskRows(s, t) != []
    ensures Trim(TopRiskCsv(s, t, show)) == TopRiskCsv(s, t, show)
  {
    var text := TopRiskCsv(s, t, show);
    TopRiskCsvLines(s, t, show);
    assert text[0] == 'C';
    TrimOfTrimmed(text);
  }

  lemma RowTextsPlain(s: seq<Customer>, t: real, show: real -> string)
    requires PlainRecords(s, show)
    ensures forall k :: 0 <= k < |TopRiskRows(s, t)| ==>
      '\n' !in RowTexts(TopRiskRows(s, t), show)[k] && Csv.StripCr(RowTexts(TopRiskRows(s, t), show)[k]) == RowTexts(TopRiskRows(s, t), show)[k]
  {
    var rows := TopRiskRows(s, t);
    var ts := RowTexts(rows, show);
    forall k | 0 <= k < |rows| ensures '\n' !in ts[k] && Csv.StripCr(ts[k]) == ts[k] {
      ExportedFromInput(s, t, k);
      var i :| 0 <= i < |s| && s[i] == rows[k];
      RowLine(rows[k], show);
    }
  }

  lemma LinesOfJoin(lines: seq<string>)
    requires |lines| >= 1
    requires forall k :: 0 <= k < |lines| ==> '\n' !in lines[k] && Csv.StripCr(lines[k]) == lines[k]
    ensures Csv.Lines(Join(lines, "\n")) == lines
  {
    SplitJoin(lines, '\n');
  }

  /** The lines `parseCSV` sees in a non-empty export are the header and the rows. */
  lemma ExportLines(s: seq<Customer>, t: real, show: real -> string)
    requires PlainRecords(s, show) && TopRiskRows(s, t) != []
    ensures Csv.Lines(Trim(TopRiskCsv(s, t, show))) == [Header] + RowTexts(TopRiskRows(s, t), show)
  {
    var ts := RowTexts(TopRiskRows(s, t), show);
    HeaderCells();
    TopRiskCsvLines(s, t, show);
    ExportTrimmed(s, t, show);
    RowTextsPlain(s, t, show);
    LinesOfJoin([Header] + ts);
  }

  /** An export with no rows parses to no records. */
  lemma ExportEmpty(s: seq<Customer>, t: real, show: real -> string)
    requires TopRiskRows(s, t) == []
    ensures Csv.ParseCsv(TopRiskCsv(s, t, show)) == []
  {
    assert TopRiskCsv(s, t, show) == Header + "\n";
    TrimAppendSpace(Header, "\n");
    HeaderCells();
    TrimOfTrimmed(Header);
    SplitNoSep(Header, '\n');
  }

  /** A non-empty export parses, row by row, to the cells `Columns` maps to in each exported line. */
  lemma ExportParsed(s: seq<Customer>, t: real, show: real -> string)
    requires PlainRecords(s, show) && TopRiskRows(s, t) != []
    ensures Csv.ParseCsv(TopRiskCsv(s, t, show)) == Csv.Records(Columns, RowTexts(TopRiskRows(s, t), show))
  {
    var text := TopRiskCsv(s, t, show);
    ExportLines(s, t, show);
    HeaderCells();
    assert Csv.Header(text) == Columns;
  }

  /** Every exported record comes from the input, so the export's records are plain when the input's are. */
  lemma TopRiskRowsPlain(s: seq<Customer>, t: real, show: real -> string)
    requires PlainRecords(s, show)
    ensures PlainRecords(TopRiskRows(s, t), show)
  {
    forall k | 0 <= k < |TopRiskRows(s, t)|
      ensures TopRiskRows(s, t)[k].id.Some? && PlainCell(TopRiskRows(s, t)[k].id.value) && PlainCell(show(TopRiskRows(s, t)[k].p))
    {
      ExportedFromInput(s, t, k);
    }
  }

  /** Reading back the exported lines of plain records rebuilds each record through `show` and `parse`. */
  lemma ReadRows(rows: seq<Customer>, show: real -> string, parse: FloatParser)
    requires PlainRecords(rows, show)
    ensures BaselineCustomers(parse, Csv.Records(Columns, RowTexts(rows, show)))
      == seq(|rows|, i requires 0 <= i < |rows| => Reread(rows[i], show, parse))
  {
    var parsed := Csv.Records(Columns, RowTexts(rows, show));
    forall k | 0 <= k < |rows|
      ensures FromCsvRow(parse, parsed[k]) == Reread(rows[k], show, parse)
    {
      ReadRow(rows[k], show, parse);
    }
  }

  /**
   * Round trip: parsing `top_risk.csv` with `parseCSV` and rebuilding the
   * records as `loadBaseline` does gives back the exported records, in the
   * exported order, with each probability passed through its printed form.
   */
  lemma ExportRoundTrip(s: seq<Customer>, t: real, show: real -> string, parse: FloatParser)
    requires PlainRecords(s, show)
    ensures var rows := TopRiskRows(s, t);
      BaselineCustomers(parse, Csv.ParseCsv(TopRiskCsv(s, t, show)))
        == seq(|rows|, i requires 0 <= i < |rows| => Reread(rows[i], show, parse))
  {
    var rows := TopRiskRows(s, t);
    if rows == [] {
      ExportEmpty(s, t, show);
    } else {
      ExportParsed(s, t, show);
      TopRiskRowsPlain(s, t, show);
      ReadRows(rows, show, parse);
    }
  }

  /**
   * When the printed probabilities parse back to themselves, re-importing
   * the export yields exactly the exported records.
   */
  lemma ExportReloadsRecords(s: seq<Customer>, t: real, show: real -> string, parse: FloatParser)
    requires PlainRecords(s, show)
    requires forall i :: 0 <= i < |s| ==> parse(show(s[i].p)) == Some(s[i].p)
    ensures BaselineCustomers(parse, Csv.ParseCsv(TopRiskCsv(s, t, show))) == TopRiskRows(s, t)
  {
    ExportRoundTrip(s, t, show, parse);
    var rows := TopRiskRows(s, t);
    TopRiskRowsSpec(s, t);
    forall k | 0 <= k < |rows| ensures Reread(rows[k], show, parse) == rows[k] {
      assert rows[k] in rows;
    }
  }
}
