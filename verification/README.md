# Sensor logger and dashboard — a Dafny model

A Raspberry Pi sampler (`sensor_logger.py`) reads two sensors about once a
minute and appends one CSV row per reading:

- an HM3301 particulate-matter sensor on the I2C bus (PM1, PM2.5, PM10);
- a DHT22 temperature / humidity sensor on one GPIO wire.

Each sensor read makes a fixed number of attempts and averages the valid
ones. It falls back to the last known good values when every attempt fails,
and reports `error` when nothing was ever stored.

A small web server (`webserver_dashboard.py`) reads the same CSV back. It
keeps the last `limit` raw rows. It drops rows where either status is not
`ok` or `fallback` (in this log, `error`) or where a numeric field does not
parse; `fallback` rows are kept. It serves six parallel arrays (`/api/history`), the newest entry
(`/api/latest`, 404 when there is none), and a page whose script cuts the
arrays to a time range (`filterData`).

The model is functional:

- Attempt outcomes are a function from attempt number to result.
- The last-known-good globals are `Option` values threaded through each call.
- A CSV data line is a `map<string, string>` as `csv.DictReader` yields it.
- Means and parsed numbers are `real`.
- Number formatting, number parsing, clock reads and timestamp rendering are
  parameters left abstract.

Modules:

- `Common` (`common.dfy`): options, statuses, sums, means and bounds; `Collect`,
  the fold over a fixed number of attempts; `FilterMap`, the order-preserving
  filter.
- `Hm3301` (`hm3301.dfy`): block decoding and `read_hm3301`.
- `Dht22` (`dht22.dfy`): `read_dht22`, both as written and with the three-value
  error result its caller expects.
- `SensorLogger` (`sensor_logger.dfy`): the header, the record and its row,
  the cadence, one pass of the main loop, and runs of many passes.
- `Dashboard` (`dashboard.dfy`): `read_history`, `read_latest`, `/api/latest`.
- `RangeFilter` (`range_filter.dfy`): the page's `filterData`.
- `LogRoundTrip` (`log_roundtrip.dfy`): a row the sampler writes, as the
  dashboard reads it back.

`last_log_time` holds the clock value read at the start of a pass, before
the sensor reads (sensor_logger.py:158, 193). The interval therefore runs
from the start of the previous logged pass, not from its end. `Tick` and
`RunCadence` state this.

`Tick`, `Run` and every lemma about runs model the pass with the corrected
DHT22 read (`Dht22.ReadDht22`, whose `error` result has three values). The
code as written stops the logger on the pass where that read fails with
nothing stored (see "## Findings"). `TickAsWritten` models that pass, and
`SensorLogger.TickAsWrittenCrashesIff` proves that it agrees with `Tick` on
every other pass.

## Model

| member | source | states |
|---|---|---|
| Common.MeanWithinMinMax | sensor_logger.py:68-74 | The average of a non-empty list of readings lies between the list's smallest and largest element. |
| Common.MeanOfConstant | sensor_logger.py:68-71 | Averaging a list of equal readings gives that reading back. |
| Common.Collect | sensor_logger.py:51-66 | The valid samples of n attempts number at most n. |
| Common.CollectComplete | sensor_logger.py:51-66 | Every valid attempt among the first n has its sample collected, so a failed attempt never ends the loop early. |
| Common.CollectSound | sensor_logger.py:51-66 | Every collected sample is the decoding of some attempt numbered below n. |
| Common.CollectEmptyIff | sensor_logger.py:97-114 | No sample is collected exactly when every one of the n attempts failed. |
| Common.CollectFullIff | sensor_logger.py:97-112 | n samples are collected exactly when none of the n attempts failed. |
| Common.CollectFrame | sensor_logger.py:51 | Only attempts numbered below n are made: outcomes from attempt n on do not affect the samples. |
| Common.FilterMap | webserver_dashboard.py:42-70 | The filter emits at most as many entries as it is given. |
| Common.FilterMapSubsequence | webserver_dashboard.py:42-70 | The output is an order-preserving subsequence: its k-th entry is the image of the row at the k-th kept position, positions strictly increase, and every accepted row's position is among them. |
| Common.FilterMapAppend | webserver_dashboard.py:42-70 | Filtering a concatenation is the concatenation of the filtered parts. |
| Common.FilterMapEmptyIff | webserver_dashboard.py:42-70 | The output is empty exactly when no row is accepted. |
| Common.FilterMapLast | webserver_dashboard.py:84-94 | The last output entry is the image of the last accepted row, and no row after it is accepted. |
| Hm3301.Word | sensor_logger.py:54-56 | The big-endian word lies in [0, 65535] and splits back into its high and low byte. |
| Hm3301.Decode | sensor_logger.py:53-56 | A block yields a sample exactly when it reaches byte 9; each PM value fits 16 bits and its high and low bytes are bytes 4/5, 6/7 and 8/9 of the block. |
| Hm3301.DecodeEncode | sensor_logger.py:53-56 | Any three 16-bit values placed at those offsets of a 29-byte block decode back to themselves. |
| Hm3301.EncodeDecode | sensor_logger.py:53-56 | Decoding reads exactly bytes 4 to 9: re-encoding a decoded block gives those bytes back. |
| Hm3301.ReadHm3301 | sensor_logger.py:39-83 | Status is `ok` iff some attempt was valid; then each value is the mean of its own list and the three means are stored. `fallback` iff all attempts failed and a value is stored; it returns the stored values verbatim. `error` returns three absent values. On anything but `ok` the stored values are unchanged. |
| Hm3301.ReadHm3301Loop | sensor_logger.py:47-83 | The loop with its three lists makes exactly `max_tries` attempts, with no early exit, and agrees with `ReadHm3301`. |
| Hm3301.OkMeansWithinReadings | sensor_logger.py:68-74 | On `ok` each reported PM value lies between the smallest and largest valid reading of that quantity. |
| Hm3301.OkMeansInWordRange | sensor_logger.py:54-74 | On `ok` each reported PM value lies in [0, 65535]. |
| Hm3301.CoherencePreserved | sensor_logger.py:73-83 | The three stored values stay all-present or all-absent, and under that a result carries values exactly when its status is not `error`. |
| Hm3301.MemoryNeverCleared | sensor_logger.py:73-79 | Once a value is stored it stays stored, and the status is never `error`. |
| Dht22.ReadDht22 | sensor_logger.py:86-127 | As for the HM3301, over temperature and humidity, with a three-value `error` result: `ok` iff some attempt had both values, with the two means stored; `fallback` with the stored values verbatim; state unchanged unless `ok`. |
| Dht22.ReadDht22Loop | sensor_logger.py:94-124 | The loop makes exactly `max_tries` attempts, keeps the two lists equally long, and agrees with `ReadDht22`. |
| Dht22.ReadDht22AsWritten | sensor_logger.py:86-127 | The DHT22 read as written returns the four-value tuple exactly when every attempt failed and no temperature is stored, and then the tuple is three Nones with `error` and the stored values are untouched; `AsWrittenArity` relates every other case to `ReadDht22`. |
| Dht22.AsWrittenArity | sensor_logger.py:114-127 | The function as written returns four values exactly when all attempts failed and no temperature is stored; otherwise it returns the same three values and state as `ReadDht22`. |
| Dht22.OkMeansWithinReadings | sensor_logger.py:114-119 | On `ok` temperature and humidity each lie between the smallest and largest valid reading. |
| Dht22.CoherencePreserved | sensor_logger.py:114-127 | Stored temperature and humidity stay both-present or both-absent, and a result carries values exactly when its status is not `error`. |
| Dht22.MemoryNeverCleared | sensor_logger.py:118-124 | Once a temperature is stored it stays stored, and the status is never `error`. |
| SensorLogger.HeaderDistinct | sensor_logger.py:137-146 | The eight header names are pairwise distinct. |
| SensorLogger.Cell | sensor_logger.py:169-173 | A field is empty exactly when the value is absent; a present value is formatted. |
| SensorLogger.Row | sensor_logger.py:169-187 | The row has one field per header column, and the field at each position is the one that column names. |
| SensorLogger.Tick | sensor_logger.py:156-193 | A pass, with the corrected DHT22 read, logs a record exactly when `now - last_log_time >= 60`; a pass that logs nothing changes nothing; a logged pass sets `last_log_time` to the `now` read before the sensor reads. The code as written stops instead on a due pass whose DHT22 read fails with nothing stored (`TickAsWrittenCrashesIff`). |
| SensorLogger.TickCoherent | sensor_logger.py:165-166 | A pass keeps both stored states coherent and writes a record whose values are present exactly when its sensor's status is not `error`. |
| SensorLogger.StoredMatchesRecord | sensor_logger.py:165-187 | After a logged pass, each sensor without `error` has exactly the record's values stored. |
| SensorLogger.FallbackRepeatsLastValues | sensor_logger.py:77-79 | When every attempt of a sensor fails on the pass after one that recorded it without `error`, the new record says `fallback`, repeats the earlier values, and leaves the stored values alone. |
| SensorLogger.TickAsWritten | sensor_logger.py:156-197 | The pass as written stops the logger (the three-name unpacking fails) exactly when a record is due, every DHT22 attempt fails and no temperature was stored; `TickAsWrittenCrashesIff` shows that otherwise it behaves as `Tick`. |
| SensorLogger.TickAsWrittenCrashesIff | sensor_logger.py:156-197 | The pass as written stops the logger exactly when a record is due, all DHT22 attempts fail and no temperature was stored; otherwise it behaves as `Tick`. |
| SensorLogger.FirstTickWithoutDhtReadingCrashes | sensor_logger.py:165 | The first due pass of a process whose DHT22 never answers stops the logger as written. |
| SensorLogger.FirstTickTotalOutageIsLogged | sensor_logger.py:165-187 | With the three-value `error` result, that pass logs a row with five empty value fields and `error` for both statuses. |
| SensorLogger.Run | sensor_logger.py:156-195 | A run of passes logs at most one record per pass. Runs use the corrected DHT22 read. |
| SensorLogger.RunCadence | sensor_logger.py:158-193 | Consecutive records of a run start at least 60 seconds apart, the first at least 60 after the initial `last_log_time`, and `last_log_time` ends at the start of the last record. Runs use the corrected DHT22 read. |
| SensorLogger.RunConsistent | sensor_logger.py:156-193 | Over a run from a coherent state, every record's values are present exactly when its status is not `error`. Runs use the corrected DHT22 read. |
| SensorLogger.StoredRulesOutError | sensor_logger.py:73-79 | Once a sensor has a stored value, no later record of the run has `error` for it. Runs use the corrected DHT22 read. |
| SensorLogger.NoErrorAfterReading | sensor_logger.py:32-36 | For each sensor, `error` appears in a run only before its first non-`error` record. Runs use the corrected DHT22 read. |
| Dashboard.DictRowLookup | webserver_dashboard.py:31-33 | With distinct header names, each name maps to the field at its own position, and only header names are keys. |
| Dashboard.Extract | webserver_dashboard.py:42-63 | A row survives exactly when both statuses are `ok` or `fallback` and all five numeric fields parse; it then carries the label (the HH:MM rendering if the timestamp parses, else the raw timestamp) and the five parsed numbers. |
| Dashboard.Window | webserver_dashboard.py:28-33 | The deque never holds more than `limit` rows. |
| Dashboard.WindowIsSuffix | webserver_dashboard.py:28-33 | The deque ends holding exactly the last min(limit, n) rows. |
| Dashboard.Columns | webserver_dashboard.py:65-70 | The six arrays are equally long, one entry per surviving row. |
| Dashboard.ColumnsAt | webserver_dashboard.py:65-70 | Position k of the six arrays holds the fields of the k-th surviving row. |
| Dashboard.ColumnsSplit | webserver_dashboard.py:65-70 | The arrays of a concatenation are the concatenated arrays. |
| Dashboard.ReadHistory | webserver_dashboard.py:13-79 | A missing file gives six empty arrays; the arrays are always equally long and hold at most `limit` entries. |
| Dashboard.ReadHistoryLoop | webserver_dashboard.py:28-79 | The loop with six lists, each appended to exactly when a row survives, keeps them equally long and agrees with `ReadHistory`. |
| Dashboard.SuffixSubsequence | webserver_dashboard.py:28-63 | The surviving rows of a suffix sit in the file at strictly increasing positions from its start, and every surviving row from there on is among them. |
| Dashboard.HistoryFromLastRows | webserver_dashboard.py:28-70 | The window is applied before the filter: entry k of the history is the k-th surviving row among the last min(limit, n) raw rows. |
| Dashboard.HistoryWindowsNest | webserver_dashboard.py:82-83 | A smaller window's arrays are suffixes of a larger window's arrays. |
| Dashboard.LatestWindowEmptyIff | webserver_dashboard.py:82-84 | The history read with limit 500 is empty exactly when the file is missing or no row among its last 500 rows survives. |
| Dashboard.ReadLatest | webserver_dashboard.py:82-94 | `read_latest` is None exactly when the file is missing or no row among the last 500 survives; `LatestIsLastSurvivor` shows that otherwise it is the last surviving row. |
| Dashboard.LatestIsLastSurvivor | webserver_dashboard.py:82-94 | `read_latest` is None exactly when the file is missing or no row among the last 500 survives; otherwise it is the file's last surviving row. |
| Dashboard.LatestMatchesHistory | webserver_dashboard.py:82-99 | When `read_latest` answers, it equals the last entry of the full history. |
| Dashboard.ApiLatest | webserver_dashboard.py:102-107 | The reply is 404 with `{"error": "no data yet"}` exactly when there is no latest entry, and 200 with that entry otherwise. |
| Dashboard.EmptyLogAnswersNotFound | webserver_dashboard.py:18-26 | A missing or empty log answers `/api/latest` with 404. |
| RangeFilter.KeptCount | webserver_dashboard.py:208-215 | A range keeps at most as many entries as there are. |
| RangeFilter.FilterData | webserver_dashboard.py:203-225 | `"all"` and unknown ranges return the input; a named range returns, in all six arrays, the last min(len, N) entries, with N = 60, 240, 1440, 10080, 43200. |
| RangeFilter.FilterComposes | webserver_dashboard.py:203-225 | Filtering twice keeps the shorter of the two windows; re-applying a range changes nothing. |
| RangeFilter.NarrowerRangeIsSuffix | webserver_dashboard.py:208-224 | A narrower named range yields a suffix of a wider one. |
| LogRoundTrip.ReadBackColumns | sensor_logger.py:178-187 | Reading a written row back under the header gives, for each column name, exactly the field written for it. |
| LogRoundTrip.UsableIff | webserver_dashboard.py:43-46 | Of the three status names, only `error` is rejected by the dashboard's status test. |
| LogRoundTrip.WrittenRowShownIff | webserver_dashboard.py:42-63 | A consistent record written with parseable formatting reaches the charts exactly when neither status is `error`, carrying its label and its parsed formatted values. |
| LogRoundTrip.RunRecordsShownIff | webserver_dashboard.py:43-46 | Over any run from process start, a logged record reaches the charts exactly when neither of its statuses is `error`. Runs use the corrected DHT22 read. |

## Left out

- SensorLogger.Tick: models the pass with the corrected three-value DHT22 `error` result, and so do `Run` and the run lemmas. A run of the code as written ends at the first due pass whose DHT22 read fails with nothing stored; `TickAsWrittenCrashesIff` states exactly when that happens.
- Hardware: the SMBus handle, the `board` pin and the DHT driver. Each attempt's outcome is an input; `bus.close()` is not modelled.
- `time.sleep` between attempts and between passes, and the one-second idle pass. Clock readings and the ISO timestamp string are inputs.
- Float formatting (`:.1f`, `:.2f`) and `float()` parsing are abstract functions. Rounding, NaN and infinities are not modelled.
- Hm3301.ReadHm3301: means are exact reals, not IEEE doubles.
- Dht22.ReadDht22: means are exact reals, not IEEE doubles.
- CSV framing: quoting and line splitting, the file-existence check in `ensure_logfile`, and writing the header line. The log is a sequence of already-split rows.
- `print` diagnostics and the `KeyboardInterrupt` handler.
- The `/download` route, `jsonify`, the HTML page, Chart.js rendering and zoom, and the `setInterval` polling.
- Concurrent access: the dashboard reading while the sampler appends.
- Dashboard.ReadHistory: `limit` is a natural number. The negative `maxlen` that `deque` rejects is not modelled.
- The error message text printed by the sensor reads, and the attempt counter in those messages.

## Findings

| source | as written | input that shows it | evidently intended | confidence | as-written member | corrected member |
|---|---|---|---|---|---|---|
| sensor_logger.py:127 | The `error` path of `read_dht22` returns four values, `None, None, None, "error"`. Its caller unpacks three (sensor_logger.py:165). The resulting ValueError escapes the loop, which only catches a keyboard interrupt, so the logger stops. | The first due pass after start, with every one of the five DHT22 attempts failing (`SilentDht`). | Return `None, None, "error"`, like the other two paths. The pass then logs a row with empty temperature and humidity and `error` as the DHT status. | high; not executed | SensorLogger.FirstTickWithoutDhtReadingCrashes | Dht22.ReadDht22 |
