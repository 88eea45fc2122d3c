# Bank churn dashboard: record-handling core in Dafny

This project models the browser-side record logic of the bank-churn
dashboard (`dashboard/app.js`) and proves properties of it. The model covers:

- **`parseCSV`.** It trims the text, splits it into lines and commas, and keys each
  record by the header names. Lines are split with `\r?\n` and cells are trimmed.
- **Record construction.** `loadBaseline` builds `{id, pFused, churn}` records
  from the CSV, and `uploadAndScore` builds them from the `/batch_score` JSON.
- **`indexize`.** It builds the search index: a map from the trimmed,
  upper-cased id to the last record with that id, skipping blank ids.
- **Dataset store.** The module-level state holds the baseline and uploaded
  lists, their two indexes and the threshold. `loadBaseline` and
  `uploadAndScore` replace the state, and `Store.DatasetStore` is its class.
- **Read-only policies.** These are `getActiveMap` for search, the export
  handler's choice of source, and the search handler's four outcomes.
- **`downloadTopRisk`.** It filters by threshold, inclusive. It sorts stably by
  decreasing probability and writes the exact `top_risk.csv` text.
- **Other selections.** These are `renderTopTable`'s top-10 selection,
  `riskBand` and `explain`.

Modules:

- `Text`: the string primitives.
  - `trim` over the ECMAScript whitespace set, with `toUpperCase` restricted to ASCII.
  - `split` on one character and `join`, whose round trips are proved in both directions.
- `Csv`: `parseCSV`.
- `Customers`: the record type and the two record builders.
- `CustomerIndex`: `indexize`, as a method with a loop over the list. It is
  proved against a recursive definition. This module also holds the search lookup.
- `TopRisk`: the export rows and text, the top-10 selection, and an export/import round trip.
- `Live`: `riskBand` and `explain`.
- `Store`: the state class.

Number parsing and printing are parameters:

- `parse: string -> Option<real>` stands for `parseFloat` with its finiteness check.
- `show: real -> string` stands for the number-to-text conversion used in the
  export's template literal.

Network results are method parameters, with `None` for a request that
failed. The "Use uploaded data" checkbox is a boolean parameter.

With the checkbox ticked, an empty uploaded index and a non-empty baseline
index, `getActiveMap` (dashboard/app.js:63-68) returns the baseline index;
`Store.ActiveMapFallsBack` states this.

Three smaller points about the model:

- **`p >= null`:** a threshold still `null` makes `p >= null` compare with 0, and
  the model does that.
- **The `??` fallbacks:** the code writes `c.id ?? c.CustomerID` and
  `c.pFused ?? c.P_Fused`. The records the dashboard builds only have `id`,
  `pFused` and `churn`, so these reduce to the first operand.
- **Line splitting:** `Csv.Lines` splits on `\n` and removes one trailing `\r`
  from each line. On trimmed text this is the same as splitting on `\r?\n`.

## Model

| member | source | states |
|---|---|---|
| Text.TrimSpec | dashboard/app.js:10 | `trim` returns the slice of the text between a whitespace-only prefix and a whitespace-only suffix, with no whitespace at either edge of the result, and "" exactly when the text is all whitespace |
| Text.TrimIdempotent | dashboard/app.js:58 | trimming twice is trimming once |
| Text.UpperLower | dashboard/app.js:267 | upper-casing ignores earlier lower-casing and is idempotent |
| Text.Split | dashboard/app.js:11 | splitting yields at least one piece and no piece contains the separator |
| Text.JoinSplit | dashboard/app.js:13 | joining the pieces of a split with the separator gives back the text |
| Text.SplitJoin | dashboard/app.js:118 | splitting a join of separator-free pieces, at least one, gives back the pieces |
| Csv.Lines | dashboard/app.js:10 | one line per newline-separated piece, with at least one line |
| Csv.ParseCsv | dashboard/app.js:9-16 | one record per line after the first line of the trimmed text |
| Csv.ParseCsvCell | dashboard/app.js:9-16 | a record's keys are exactly the header names; under the last column with a given name it holds the trimmed cell of its line, or nothing when the line is shorter, and extra cells are dropped |
| Csv.BuildRow | dashboard/app.js:14 | `headers.forEach((h, i) => (r[h] = cols[i]))`; defined by its body, its meaning is stated by `Csv.BuildRowKeys` and `Csv.BuildRowValue` |
| Csv.BuildRowKeys | dashboard/app.js:14 | `headers.forEach` defines exactly the header names |
| Csv.BuildRowValue | dashboard/app.js:14 | a header's value is the cell at its last position, so the later duplicate column wins |
| Csv.ParseCsvBlank | dashboard/app.js:10 | empty or whitespace-only text gives no records |
| Csv.ParseCsvTrailingBlank | dashboard/app.js:10 | trailing blank lines and spaces add no records |
| CustomerIndex.Indexize | dashboard/app.js:54-62 | the loop's map is the index of the whole list, in which each non-blank key is set to its record, later ones overwriting |
| CustomerIndex.Key | dashboard/app.js:57-58 | the normalised id `(c.id ?? "").trim().toUpperCase()`; defined by its body, its use as the index key is stated by `CustomerIndex.IndexKeys` and `CustomerIndex.SearchFindsIndexed` |
| CustomerIndex.IndexKeys | dashboard/app.js:56-59 | the keys are exactly the non-blank normalised ids of the list |
| CustomerIndex.NoBlankKey | dashboard/app.js:59 | the blank key is never stored |
| CustomerIndex.IndexLastWins | dashboard/app.js:59 | each key maps to the last record in list order with that key |
| CustomerIndex.IndexSize | dashboard/app.js:54-61 | the index has no more entries than the list has records |
| CustomerIndex.IndexOfSpec | dashboard/app.js:54-61 | keys are the non-blank ids, the value is the last matching record, every value is a list element, and size is at most the length |
| CustomerIndex.IndexFindsEveryRecord | dashboard/app.js:54-61 | every record with a non-blank id is reachable through its key, which holds it or a later record with the same key |
| CustomerIndex.SearchIn | dashboard/app.js:262-280 | blank query gives "Enter a CustomerID." before any map is read; an empty map gives "No data loaded yet"; otherwise the trimmed, upper-cased query is looked up (not found or hit), and a hit shows the record's id or else the query |
| CustomerIndex.SearchFindsIndexed | dashboard/app.js:264-274 | an indexed record's own id, padded with whitespace, hits that key's entry, and the lower-cased id gives the same outcome |
| TopRisk.Insert | dashboard/app.js:111 | insertion adds exactly one record: the result is a permutation of the input plus it |
| TopRisk.InsertSorted | dashboard/app.js:111 | inserting into a list in decreasing order keeps it in decreasing order |
| TopRisk.SortDesc | dashboard/app.js:111 | the sort yields a permutation of its input in non-increasing probability order |
| TopRisk.SortDescStable | dashboard/app.js:111 | records of equal probability keep their input order |
| TopRisk.AtLeast | dashboard/app.js:110 | the filter keeps each record with probability at or above the threshold, as often as it occurs, and no other |
| TopRisk.WithPAtLeast | dashboard/app.js:110 | filtering keeps the input order among records of equal probability |
| TopRisk.TopRiskRows | dashboard/app.js:109-116 | the filter then the sort; defined by its body, its meaning is stated by `TopRisk.TopRiskRowsSpec` |
| TopRisk.TopRiskRowsSpec | dashboard/app.js:109-116 | the exported records are exactly those at or above the threshold, with multiplicity, in non-increasing order, ties in input order |
| TopRisk.ThresholdInclusive | dashboard/app.js:110 | a record exactly at the threshold is exported |
| TopRisk.TopTen | dashboard/app.js:103 | `[...customers].sort(...).slice(0, 10)`; defined by its body, its meaning is stated by `TopRisk.TopTenSpec` |
| TopRisk.TopTenSpec | dashboard/app.js:103 | the table shows min(10, n) records of the list, in non-increasing order, none below any record left out; among records of one probability it shows the earliest in input order, in input order |
| TopRisk.RowText | dashboard/app.js:118 | the `${CustomerID},${P_Fused},${Churn_Predicted}` line with the flag as 1 or 0; defined by its body, read back by `TopRisk.ReadRow` |
| TopRisk.TopRiskCsv | dashboard/app.js:117-118 | header plus newline plus the rows joined by newlines; defined by its body, its shape is stated by `TopRisk.TopRiskCsvEmpty`, `TopRisk.TopRiskCsvLines` and `TopRisk.ExportRoundTrip` |
| TopRisk.TopRiskCsvEmpty | dashboard/app.js:117-118 | with no record at or above the threshold the file is the header line and a newline |
| TopRisk.TopRiskCsvLines | dashboard/app.js:117-118 | otherwise it is the header and the rows joined by newlines, ending in the last row's 0/1 flag with no trailing newline |
| TopRisk.HeaderCells | dashboard/app.js:117 | the header line parses to the three column names |
| TopRisk.ReadRow | dashboard/app.js:80-82 | an exported row with plain cells, parsed and rebuilt by `loadBaseline`'s record builder, gives back its record: same id, same churn flag, the probability through its printed text |
| TopRisk.ExportRoundTrip | dashboard/app.js:108-118 | parsing the export as `loadBaseline` does gives back the exported records, in order, each probability reread from its text |
| TopRisk.ExportReloadsRecords | dashboard/app.js:108-118 | when printed probabilities parse back to themselves, re-importing the export gives exactly the exported records |
| Live.RiskBandOf | dashboard/app.js:169 | HIGH exactly when p ≥ 0.85, MEDIUM exactly when 0.60 ≤ p < 0.85, LOW exactly when p < 0.60 |
| Live.BadgeText | dashboard/app.js:239 | "HIGH RISK" exactly when p ≥ 0.85, "MEDIUM RISK" exactly when 0.60 ≤ p < 0.85, "LOW RISK" exactly when p < 0.60 |
| Live.RiskBandMonotone | dashboard/app.js:169 | a higher probability never gets a lower band |
| Live.Tips | dashboard/app.js:194-198 | the four conditional `push` calls; defined by its body, its meaning is stated by `Live.TipsSpec` |
| Live.TipsSpec | dashboard/app.js:195-198 | each tip is listed exactly when its condition holds, and the tips appear in the fixed order balance, transactions, tenure, default, without repeats |
| Live.Explain | dashboard/app.js:193-201 | the pushed tips, or the healthy message when none fired, joined by " + " |
| Live.ExplainHealthy | dashboard/app.js:199-200 | with no condition met the text is exactly "Healthy balances/usage & clean history" |
| Live.HealthyOnlyAlone | dashboard/app.js:199 | the healthy message is shown only when no tip fired |
| Store.DatasetStore.constructor | dashboard/app.js:46-52 | the page starts with empty lists, empty indexes and a null threshold |
| Store.DatasetStore.LoadBaseline | dashboard/app.js:71-92 | a failed health request changes nothing. Otherwise the threshold is set, and a non-empty CSV text replaces the baseline list with its records and the baseline index with their index. The uploaded data is never touched |
| Store.DatasetStore.UploadAndScore | dashboard/app.js:127-166 | no file changes nothing. A failed request fails with no change. A response sets the threshold even if its rows are missing, in which case the upload fails. Otherwise the uploaded list and its index are replaced and the baseline is never touched |
| Store.DatasetStore.ActiveMap | dashboard/app.js:63-68 | the uploaded index if the flag is set and it has entries, else the baseline index if it has entries, else the uploaded index; empty exactly when both indexes are empty |
| Store.DatasetStore.Search | dashboard/app.js:264-275 | the search handler on the active index; defined by its body, its outcomes are stated by `CustomerIndex.SearchIn`, `Store.SearchFindsUploaded` and `Store.SearchFindsBaseline` |
| Store.DatasetStore.ExportSource | dashboard/app.js:254-255 | the uploaded list only when the flag is set and it is non-empty, otherwise the baseline list, with no fallback |
| Store.DatasetStore.DownloadTopRisk | dashboard/app.js:253-258 | no export when the chosen source is empty, otherwise the `top_risk.csv` text of that source at the current threshold, with `null` comparing as 0 |
| Store.ActiveMapFallsBack | dashboard/app.js:63-68 | with an empty uploaded index and a non-empty baseline index, search uses the baseline whether or not the flag is set |
| Store.SearchAndExportDisagree | dashboard/app.js:255 | when every record of a non-empty uploaded list has a blank id, search falls back to the baseline index while export still uses the uploaded list |
| Store.SearchFindsUploaded | dashboard/app.js:262-275 | with the flag set, every uploaded record with a non-blank id, padded or not, is found. The hit is the last uploaded record with that key |
| Store.SearchFindsBaseline | dashboard/app.js:262-275 | with the flag off and a non-empty baseline index, every baseline record with a non-blank id is found by its id |

## Left out

- HTTP and async sequencing: the `fetch` calls to `/health`, `scored_customers.csv`, `/batch_score` and `/predict_churn`, and the order their answers arrive in, are network I/O; their results are parameters of the store's methods.
- DOM and rendering: DOM reads and writes, `alert`, status texts, `renderOverview`, the Chart.js doughnut and its resize handling, and the table and result HTML strings are user interface and a foreign library.
- Browser storage and downloads: `saveForm`/`loadForm` (`localStorage`) and the Blob/anchor download of `top_risk.csv` are browser I/O; the model stops at the file's text.
- Number parsing and formatting: `parseFloat`, `Number.isFinite`, `toFixed`, `toLocaleString` and the number-to-text conversion in the export are parameters (`parse`, `show`); floating point itself is modelled as `real`.
- The finiteness filter `.filter(c => Number.isFinite(c.pFused))` in `loadBaseline` keeps every record, because `toNum` is always finite, and is omitted.
- Unicode case mapping: `Text.Upper` maps ASCII letters only; `toUpperCase` of other letters is not modelled.
- JavaScript object quirks: a header named `__proto__` or another inherited property name behaves differently on a plain object; a record here is a map.
- Non-string ids: ids are `Option<string>`; a numeric `CustomerID` in the JSON response, turned into text by `.toString()` in `indexize`, is not modelled.
- An `undefined` threshold (field absent from a response) is not distinguished from `null`; with `undefined` no record passes the `>=` filter, while the model compares with 0.
- `submitLive`: its NaN validation, the request and the display of the response are network and UI; `Live.LivePayload` is the validated payload.
- The count in "Scored … rows." is passed through as received and not checked against the rows.
- The number formatting (`fmtProb`) of the search hit message is not modelled; `SearchOutcome` carries the record and the id shown.
- ExportRoundTrip: proved only for records that have an id (a missing id is exported as "undefined" and reloads as the id "undefined") and whose id and printed probability contain no comma or newline and no surrounding whitespace (`PlainRecords`); the export does not quote cells, so other records do not survive the trip.
