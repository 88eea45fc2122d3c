/**
 * The dashboard's module-level state: the baseline dataset (loaded from
 * `scored_customers.csv`), the uploaded dataset (returned by
 * `/batch_score`), their search indexes and the decision threshold, with
 * the two loaders that replace a dataset wholesale and the read-only
 * policies that pick a dataset for search and for export.
 *
 * The network is not modelled: each loader receives what its `fetch`
 * calls produced, `None` standing for a request or JSON decoding that
 * failed. The "Use uploaded data" checkbox is the `useUploaded` flag.
 */
module Store {
  import opened Wrappers
  import opened Text
  import opened Customers
  import opened CustomerIndex
  import Csv
  import TopRisk

  /**
   * The JSON body of `/batch_score`: `threshold` is `None` for null,
   * `rows` is `None` when the field is absent or not an array.
   */
  datatype BatchResponse = BatchResponse(threshold: Option<real>, count: Option<int>, rows: Option<seq<ApiRow>>)

  /** What the upload status line ends up saying. */
  datatype UploadStatus =
    | NoFile                        // "Choose a CSV file first."
    | Failed                        // "Error during upload."
    | Scored(count: Option<int>)    // `Scored ${data.count} rows.`

  class DatasetStore {
    var baselineCustomers: seq<Customer>
    var uploadedCustomers: seq<Customer>
    var baselineIndex: Index
    var uploadedIndex: Index
    /** `None` is the initial `null`. */
    var threshold: Option<real>

    /** Each index is `indexize` of its own list. */
    ghost predicate Valid()
      reads this
    {
      baselineIndex == IndexOf(baselineCustomers) && uploadedIndex == IndexOf(uploadedCustomers)
    }

    /** The state at page load: both lists and both maps empty, no threshold. */
    constructor ()
      ensures Valid()
      ensures baselineCustomers == [] && uploadedCustomers == []
      ensures baselineIndex == map[] && uploadedIndex == map[]
      ensures threshold == None
    {
      baselineCustomers := [];
      uploadedCustomers := [];
      baselineIndex := map[];
      uploadedIndex := map[];
      threshold := None;
    }

    /**
     * `loadBaseline`: `health` is the `/health` answer's threshold (`None`
     * when that request fails, which ends the load before anything is
     * set); `csv` is the text of `scored_customers.csv` (`None` when that
     * request fails). An empty text is falsy and loads nothing.
     */
    method LoadBaseline(health: Option<Option<real>>, csv: Option<string>, parse: FloatParser)
      requires Valid()
      modifies this
      ensures Valid()
      ensures health.None? ==> threshold == old(threshold)
      ensures health.Some? ==> threshold == health.value
      ensures uploadedCustomers == old(uploadedCustomers) && uploadedIndex == old(uploadedIndex)
      ensures health.Some? && csv.Some? && csv.value != "" ==>
        baselineCustomers == BaselineCustomers(parse, Csv.ParseCsv(csv.value))
      ensures !(health.Some? && csv.Some? && csv.value != "") ==>
        baselineCustomers == old(baselineCustomers) && baselineIndex == old(baselineIndex)
    {
      if health.None? {
        return;
      }
      threshold := health.value;
      if csv.Some? && csv.value != "" {
        var rows := Csv.ParseCsv(csv.value);
        baselineCustomers := BaselineCustomers(parse, rows);
        baselineIndex := Indexize(baselineCustomers);
      }
    }

    /**
     * `uploadAndScore`: `fileChosen` is whether a file is selected;
     * `response` is the decoded `/batch_score` answer (`None` when the
     * request or decoding fails). The threshold is assigned before the
     * rows are read, so a response without rows still changes it.
     */
    method UploadAndScore(fileChosen: bool, response: Option<BatchResponse>) returns (status: UploadStatus)
      requires Valid()
      modifies this
      ensures Valid()
      ensures status == NoFile <==> !fileChosen
      ensures status == Failed <==> fileChosen && (response.None? || response.value.rows.None?)
      ensures status.Scored? ==> status.count == response.value.count
      ensures baselineCustomers == old(baselineCustomers) && baselineIndex == old(baselineIndex)
      ensures fileChosen && response.Some? ==> threshold == response.value.threshold
      ensures !(fileChosen && response.Some?) ==> threshold == old(threshold)
      ensures status.Scored? ==> uploadedCustomers == UploadedCustomers(response.value.rows.value)
      ensures !status.Scored? ==> uploadedCustomers == old(uploadedCustomers) && uploadedIndex == old(uploadedIndex)
    {
      if !fileChosen {
        return NoFile;
      }
      if response.None? {
        return Failed;
      }
      var data := response.value;
      threshold := data.threshold;
      if data.rows.None? {
        return Failed;
      }
      uploadedCustomers := UploadedCustomers(data.rows.value);
      uploadedIndex := Indexize(uploadedCustomers);
      status := Scored(data.count);
    }

    /**
     * `getActiveMap`: the uploaded index when the flag is set and it has
     * entries, else the baseline index when it has entries, else the
     * (possibly empty) uploaded index.
     */
    function ActiveMap(useUploaded: bool): (m: Index)
      reads this
      ensures m == uploadedIndex || m == baselineIndex
      ensures useUploaded && |uploadedIndex| > 0 ==> m == uploadedIndex
      ensures !(useUploaded && |uploadedIndex| > 0) && |baselineIndex| > 0 ==> m == baselineIndex
      ensures |m| == 0 <==> |uploadedIndex| == 0 && |baselineIndex| == 0
    {
      if useUploaded && |uploadedIndex| > 0 then uploadedIndex
      else if |baselineIndex| > 0 then baselineIndex
      else uploadedIndex
    }

    /** The search handler on the current state. */
    function Search(query: string, useUploaded: bool): SearchOutcome
      reads this
    {
      SearchIn(query, ActiveMap(useUploaded))
    }

    /**
     * The export handler's source: the uploaded list only when the flag is
     * set and that list is non-empty, otherwise the baseline list, even
     * when the baseline is empty.
     */
    function ExportSource(useUploaded: bool): (s: seq<Customer>)
      reads this
      ensures s == uploadedCustomers || s == baselineCustomers
      ensures useUploaded && |uploadedCustomers| > 0 ==> s == uploadedCustomers
      ensures !(useUploaded && |uploadedCustomers| > 0) ==> s == baselineCustomers
    {
      if useUploaded && |uploadedCustomers| > 0 then uploadedCustomers else baselineCustomers
    }

    /**
     * The export button: no file ("No data to export yet.") when the source
     * is empty, otherwise the text of `top_risk.csv`. A threshold still
     * `null` compares as 0.
     */
    function DownloadTopRisk(useUploaded: bool, show: real -> string): (r: Option<string>)
      reads this
      ensures r.None? <==> ExportSource(useUploaded) == []
      ensures r.Some? ==> r.value == TopRisk.TopRiskCsv(ExportSource(useUploaded), threshold.GetOr(0.0), show)
    {
      var source := ExportSource(useUploaded);
      if |source| == 0 then None
      else Some(TopRisk.TopRiskCsv(source, threshold.GetOr(0.0), show))
    }
  }

  /**
   * With the flag set but an empty uploaded index, search uses the
   * baseline index whenever it has entries.
   */
  lemma ActiveMapFallsBack(st: DatasetStore)
    requires |st.uploadedIndex| == 0 && |st.baselineIndex| > 0
    ensures st.ActiveMap(true) == st.baselineIndex
    ensures st.ActiveMap(false) == st.baselineIndex
  {
  }

  /**
   * Search and export choose differently: when every uploaded record has a
   * blank id, the uploaded index is empty, so search falls back to the
   * baseline while export still uses the non-empty uploaded list.
   */
  lemma SearchAndExportDisagree(st: DatasetStore)
    requires st.Valid()
    requires |st.uploadedCustomers| > 0 && |st.baselineIndex| > 0
    requires forall i :: 0 <= i < |st.uploadedCustomers| ==> Key(st.uploadedCustomers[i]) == ""
    ensures st.ActiveMap(true) == st.baselineIndex
    ensures st.ExportSource(true) == st.uploadedCustomers
  {
    var list := st.uploadedCustomers;
    IndexKeys(list, Key);
    assert IndexOf(list).Keys == {};
    assert |st.uploadedIndex| == |st.uploadedIndex.Keys| == 0;
  }

  /** A record without an id has the blank key, which `indexize` skips. */
  lemma NoIdBlankKey(c: Customer)
    requires c.id.None?
    ensures Key(c) == ""
  {
    TrimSpec("");
    UpperEmpty(Trim(""));
  }

  /**
   * In a consistent state, every uploaded record with a non-blank id is
   * found by searching its own id, padded with whitespace or not, when the
   * flag is set: the hit is the last uploaded record with that key.
   */
  lemma SearchFindsUploaded(st: DatasetStore, i: int, pad: string, pad2: string)
    requires st.Valid()
    requires 0 <= i < |st.uploadedCustomers| && Key(st.uploadedCustomers[i]) != ""
    requires AllSpace(pad) && AllSpace(pad2)
    ensures var list := st.uploadedCustomers; var k := Key(list[i]);
      && k in st.uploadedIndex
      && st.Search(pad + list[i].id.GetOr("") + pad2, true).Hit?
      && st.Search(pad + list[i].id.GetOr("") + pad2, true).record == st.uploadedIndex[k]
      && exists j :: i <= j && LastWithKey(list, Key, k, j) && st.uploadedIndex[k] == list[j]
  {
    var list := st.uploadedCustomers;
    SearchFindsIndexed(list, i, pad, pad2);
    IndexFindsEveryRecord(list, i);
  }

  /**
   * Likewise for the baseline when the flag is off: every baseline record
   * with a non-blank id is found by its own id.
   */
  lemma SearchFindsBaseline(st: DatasetStore, i: int)
    requires st.Valid() && |st.baselineIndex| > 0
    requires 0 <= i < |st.baselineCustomers| && Key(st.baselineCustomers[i]) != ""
    ensures st.Search(st.baselineCustomers[i].id.GetOr(""), false).Hit?
    ensures st.Search(st.baselineCustomers[i].id.GetOr(""), false).record == st.baselineIndex[Key(st.baselineCustomers[i])]
  {
    var list := st.baselineCustomers;
    SearchFindsIndexed(list, i, "", "");
    assert "" + list[i].id.GetOr("") + "" == list[i].id.GetOr("");
  }
}
