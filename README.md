# Customer feature store: ingestion, serving and query polling

A model of the deterministic core of three scripts around a managed
feature store holding one current record per customer in the
`CustomerTransactions` feature group:

- **Ingestion** (`update_feature_store.py`). Transaction rows, sorted
  ascending by purchase time, are streamed one by one. Each row becomes a
  record of four features: `customer_id`, `event_time`,
  `latest_purchase_value` and `latest_loyalty_score`. The record is stored
  in a module-level dictionary keyed by customer id, overwriting the entry
  unconditionally. Then it is sent with `put_record`; a failing write is
  caught, reported and otherwise ignored. A row without a purchase time
  (pandas' `NaT`, which the ascending sort puts last) cannot be rendered,
  and the error ends the stream at that row. The script then reads a
  customer's features back, defaulting absent ones to 0.0.
- **Serving** (`real_time_inference.py`). The service fetches a customer's
  record and turns it into a feature map, or `None`. It builds a 1x1 model
  input from `latest_purchase_value`, or `None`. It then runs the model,
  or answers `None` without consulting it.
- **Historical query** (`historical_features.py`). The script polls an
  analytical query until its state is terminal or a poll call raises. It
  then returns the result location or raises with the service's reason. It derives the S3 object
  key from the location.

Modules: `Wrappers` (Option, Result), `Text` (`str(int)`, `str.split`),
`EventTime` (the `%Y-%m-%dT%H:%M:%SZ` rendering), `FeatureStore` (the record
schema and request shapes shared by both store scripts, the
`{FeatureName: ValueAsString}` comprehension, `float(d.get(k, 0.0))`),
`UpdateFeatureStore` (the class `StreamingUpdater` holds the dictionary and
the write attempts; `LatestRecords` is the fold it is proved against),
`RealTimeInference`, `StoreRoundTrip` (a written record read back), and
`HistoricalFeatures` (`WaitForQuery` runs over the sequence of poll responses).

External calls are inputs:
- A `put_record` outcome is a boolean per call.
- `get_record` is a function from the request to a response or a client error.
- The poll results are a sequence, each a response or a raised client error.
- `float(text)` is a function `string -> Option<real>`, where `None` stands for `ValueError`.
- `model.predict` is a function `seq<seq<real>> -> seq<real>`.
- Feature values are the strings `str(...)` produced, taken as given.

Where the system's design description and the code differ, the model follows the code:
- Ingestion has no staleness check against the dictionary or the store. Only the ascending pre-sort puts the newest row last.
- Writes are not retried.
- Polling has no budget and no deadline.
- Preprocessing fills in a missing `latest_purchase_value` as 0.0. It does not signal insufficient features.

## Model

| member | source | states |
|---|---|---|
| Text.NatToString | update_feature_store.py:42 | the decimal rendering is non-empty, all digits, with no leading zero |
| Text.NatToStringValue | update_feature_store.py:42 | the decimal rendering denotes the number: reading its digits back gives `n` |
| Text.IntToString | update_feature_store.py:42 | `str(n)` starts with '-' exactly when `n` is negative, has digits after it, and is never empty |
| Text.NatToStringInjective | update_feature_store.py:42 | distinct naturals render differently |
| Text.IntToStringInjective | update_feature_store.py:42 | `str` is one-to-one on integer customer ids, sign included |
| Text.Split | historical_features.py:62 | `split('/')` yields at least one piece, no piece holds '/', and the last piece is the suffix after the last '/' (or the whole string) |
| Text.JoinSplit | historical_features.py:62 | joining the pieces with '/' gives back the location, so splitting loses nothing |
| EventTime.TwoDigitsInjective | update_feature_store.py:36 | a zero-padded two-digit field (`%m`, `%d`, `%H`, `%M`, `%S`) determines its value |
| EventTime.Format | update_feature_store.py:36 | the rendering starts with the year's digits, followed by 16 characters for the other fields and separators |
| EventTime.FormatPieces | update_feature_store.py:36 | with a four-digit year, each field sits at its fixed position in the 20-character rendering |
| EventTime.FormatShape | update_feature_store.py:36 | the event_time is `YYYY-MM-DDTHH:MM:SSZ`: 20 characters, '-' at 4 and 7, 'T' at 10, ':' at 13 and 16, 'Z' at 19, digits elsewhere |
| EventTime.FormatInjectiveToTheSecond | update_feature_store.py:36 | two timestamps render alike exactly when they agree down to the second; sub-second digits are dropped |
| FeatureStore.RecordRequestForInjective | update_feature_store.py:66-69 | distinct customers are looked up under distinct record identifiers |
| FeatureStore.ToFeatureMap | real_time_inference.py:25 | the map's keys are exactly the FeatureNames of the record |
| FeatureStore.ToFeatureMapLastWins | update_feature_store.py:71 | a name maps to the ValueAsString of its last pair, so later duplicates win |
| FeatureStore.ToFeatureMapEntrySource | real_time_inference.py:25 | every entry's value is that of the last pair of the record with that name |
| FeatureStore.FeatureAsFloat | update_feature_store.py:79-80 | an absent feature reads as 0.0; a present one is its parsed value, or raises ValueError with its text |
| UpdateFeatureStore.EncodedRecordSchema | update_feature_store.py:39-47 | the record `EncodeRow` builds for a row is for `CustomerTransactions` and has exactly customer_id, event_time, latest_purchase_value, latest_loyalty_score in that order; its identifier and group equal those of the lookup for the same customer |
| UpdateFeatureStore.DecodeEncodedRow | update_feature_store.py:39-47 | decoding an encoded record gives the four names as keys and the row's id rendering, formatted time, purchase value and loyalty score |
| UpdateFeatureStore.LatestRecords | update_feature_store.py:56-57 | after streaming, the dictionary's keys are exactly the customer ids of the rows |
| UpdateFeatureStore.LatestRecordsLastRowWins | update_feature_store.py:56-57 | a customer's entry is the record of the last row processed for that customer |
| UpdateFeatureStore.LastRowForExists | update_feature_store.py:56-57 | every row's customer has a last row at or after it |
| UpdateFeatureStore.SortedLatestIsNewest | update_feature_store.py:19 | with rows sorted ascending, each entry comes from a row of that customer whose timestamp is maximal among that customer's rows (no tie-break claimed) |
| UpdateFeatureStore.OlderRowStillOverwrites | update_feature_store.py:39 | streaming one more row replaces its customer's entry with its record, with no timestamp comparison |
| UpdateFeatureStore.LatestRecordsAppend | update_feature_store.py:56-57 | streaming a+b is streaming a and then overriding with b's entries |
| UpdateFeatureStore.LatestRecordsIdempotent | update_feature_store.py:56-57 | streaming the same batch twice leaves the same dictionary as once |
| UpdateFeatureStore.Attempts | update_feature_store.py:49-53 | one write attempt per row, in row order, each with the row's record and that call's outcome |
| UpdateFeatureStore.StreamingUpdater.constructor | update_feature_store.py:27 | the dictionary starts empty and no write has been attempted |
| UpdateFeatureStore.StreamingUpdater.UpdateFeatureStore | update_feature_store.py:31-53 | a row without a time raises the strftime ValueError and changes nothing; otherwise the row's customer now holds the row's record whatever it held before, every other entry is unchanged, and one write of that record is attempted, whose failure changes nothing else |
| UpdateFeatureStore.StreamedPrefix | update_feature_store.py:36 | the rows processed before the first row without a time: all of them have a time, and the row after them has none |
| UpdateFeatureStore.StreamedRowsTimestamped | update_feature_store.py:56-57 | every row the stream reaches before the first NaT row has a valid time |
| UpdateFeatureStore.SortedStreamStopsOnlyAtNaT | update_feature_store.py:19 | with NaT sorted last, the stream can stop only where every remaining row is NaT |
| UpdateFeatureStore.StreamingUpdater.StreamRows | update_feature_store.py:56-57 | rows are processed whatever earlier writes did, up to the first row without a time; the dictionary becomes its old contents overridden by `LatestRecords` of those rows, the attempts grow by their `Attempts`, and the loop ends in the strftime error exactly when such a row exists |
| UpdateFeatureStore.GetLatestFeatures | update_feature_store.py:65-73 | a response without `Record` gives an empty map; one with a record gives the `{FeatureName: ValueAsString}` map of that record; a client error propagates |
| UpdateFeatureStore.MissingRecordReadsAsZero | update_feature_store.py:79-80 | a customer with no stored record reads purchase value and loyalty score as 0.0 |
| RealTimeInference.GetLatestFeatures | real_time_inference.py:14-32 | `None` exactly when the lookup raises or the response has no `Record`; otherwise the `{FeatureName: ValueAsString}` map of that record, keyed by its FeatureNames |
| RealTimeInference.PreprocessFeatures | real_time_inference.py:42-51 | no input exactly for absent or empty features; otherwise a 1x1 matrix holding latest_purchase_value as parsed, or 0.0 when absent; unparsable text raises |
| RealTimeInference.RunInference | real_time_inference.py:54-61 | `None` exactly for absent or empty input; otherwise the first element of the model's prediction, an empty prediction raising IndexError |
| RealTimeInference.PreprocessReadsOnlyPurchaseValue | real_time_inference.py:47-50 | feature maps that agree on latest_purchase_value give the same input; latest_loyalty_score is never read |
| RealTimeInference.NoInputIgnoresModel | real_time_inference.py:55-57 | with no input, any two models give the same `None`: the model is not consulted |
| RealTimeInference.Score | real_time_inference.py:65-69 | the chained pipeline yields a prediction only when the lookup returned a non-empty record |
| RealTimeInference.ScoreWithoutRecord | real_time_inference.py:65-69 | a failed lookup, a missing record or an empty record ends in no prediction |
| RealTimeInference.ScoreUsesLastPurchaseValue | real_time_inference.py:47 | a customer is scored on `[[float(v)]]` for the last latest_purchase_value pair `v` of its record |
| StoreRoundTrip.WrittenUnderReadKey | update_feature_store.py:42 | the record written for a row is addressed by exactly the group and identifier that a later lookup for its customer uses, and no other customer's lookup uses them |
| StoreRoundTrip.ScoreOfIngestedRow | real_time_inference.py:14-51 | when the store returns the record written for a row, serving sees its four features and scores the row's purchase value |
| HistoricalFeatures.WaitForQuery | historical_features.py:43-57 | polls up to and including the first poll that raises or reaches a terminal state, and no further; a raised poll ends the wait with that error; on SUCCEEDED returns that response's OutputLocation, on FAILED or CANCELLED raises with that response's StateChangeReason; a missing key raises KeyError |
| HistoricalFeatures.ResultKey | historical_features.py:62 | the object key has no '/', is a suffix of the location, and is preceded there by '/' unless it is the whole location |
| HistoricalFeatures.ResultKeyIsAfterLastSlash | historical_features.py:62 | every '/' of the location lies before the key: the key is everything after the last '/' |

## Left out

- AWS calls: `start_query_execution`, `get_query_execution`, `put_record`, `get_record`, `download_file` and `upload_file` are network I/O. They appear only as given outcomes. `run_athena_query` (historical_features.py:27-40) only builds a query text and submits it, so it is not modelled.
- The contents of the remote store are not modelled. The model records which writes were attempted and their outcomes, and a lookup is a function of its request.
- pandas: `read_csv`, `to_datetime` and `sort_values` are library code. Rows arrive as a sequence, and the ascending sort is a precondition of `SortedLatestIsNewest`. No tie order is claimed.
- `download_and_load_results` is pandas loading apart from the key extraction, which is modelled.
- Python floats: `str(float)` and `float(str)` are floating-point text formats. Feature values are opaque strings, and parsing is a function parameter.
- sklearn: `train_ml_model` and `model.predict` are a foreign library working on floating point. The model's prediction is a function parameter.
- pickle and local files: `load_model` and `save_model` are file I/O.
- `time.sleep` and all `print` output are left out. The per-customer success or failure report survives only as the outcome flag of each attempt.
- Driver code: the module-level lines are modelled where they carry logic: the dictionary set-up (the `StreamingUpdater` constructor), the ingestion loop (`StreamRows`), the read-back with 0.0 defaults (`FeatureAsFloat`, `MissingRecordReadsAsZero`) and the serving chain (`Score`). The hard-coded example ids 29 and 86, the client set-up and the final reports are not modelled.
- Malformed responses: a record pair without `FeatureName` or `ValueAsString`, or a poll response without `Status.State`, raises `KeyError`. Responses are modelled as well-formed apart from the optional `OutputLocation` and `StateChangeReason`.
- The text of the raised "Query failed" exception: only the reason it carries is modelled.
- `EventTime.Format`: `%Y` is rendered unpadded, as the C library does. The shape lemmas are stated for four-digit years, and every pandas timestamp (1677 to 2262) has one.
- Retries, a poll budget or deadline, staleness checks against the store, and concurrency do not exist in the code, so they are not modelled as its behaviour.
