/**
 * The customer record the dashboard keeps after ingestion, and the two
 * places that build it: from a parsed CSV record (`loadBaseline`) and from
 * a JSON row of the batch-scoring response (`uploadAndScore`).
 */
module Customers {
  import opened Wrappers
  import opened Text
  import Csv

  /** `{ id, pFused, churn }`; `id` is `undefined` when the source had no CustomerID. */
  datatype Customer = Customer(id: Option<string>, p: real, churn: bool)

  /**
   * `parseFloat` made total: `None` for a text that does not parse to a
   * finite number (NaN or an infinity).
   */
  type FloatParser = string -> Option<real>

  /** `toNum(v)`: the parsed value when finite, otherwise 0; `parseFloat(undefined)` is NaN. */
  function ToNum(parse: FloatParser, v: Option<string>): real {
    match v
    case None => 0.0
    case Some(s) => parse(s).GetOr(0.0)
  }

  /** `r[k]` on a parsed record: `undefined` when the key is absent. */
  function Field(r: Csv.Row, k: string): Option<string> {
    if k in r then r[k] else None
  }

  /** `String(v).trim() === "1"`; `String(undefined)` is `"undefined"`. */
  function IsOneText(v: Option<string>): bool {
    match v
    case None => false
    case Some(s) => Trim(s) == "1"
  }

  /** The record `loadBaseline` builds from a row of `scored_customers.csv`. */
  function FromCsvRow(parse: FloatParser, r: Csv.Row): Customer {
    Customer(Field(r, "CustomerID"), ToNum(parse, Field(r, "P_Fused")), IsOneText(Field(r, "Churn_Predicted")))
  }

  /**
   * `rows.map(...)` in `loadBaseline`. Its `.filter(c => Number.isFinite(c.pFused))`
   * keeps every record, since `toNum` is always finite, and so is not modelled.
   */
  function BaselineCustomers(parse: FloatParser, rows: seq<Csv.Row>): seq<Customer> {
    seq(|rows|, i requires 0 <= i < |rows| => FromCsvRow(parse, rows[i]))
  }

  /** A row of the `/batch_score` JSON response; `None` is a missing or null field. */
  datatype ApiRow = ApiRow(CustomerID: Option<string>, P_Fused: Option<real>, Churn_Predicted: Option<int>)

  /** The record `uploadAndScore` builds: the churn flag is the number 1 compared strictly. */
  function FromApiRow(r: ApiRow): Customer {
    Customer(r.CustomerID, r.P_Fused.GetOr(0.0), r.Churn_Predicted == Some(1))
  }

  function UploadedCustomers(rows: seq<ApiRow>): seq<Customer> {
    seq(|rows|, i requires 0 <= i < |rows| => FromApiRow(rows[i]))
  }
}
