/**
 The read side of `webserver_dashboard.py`: `read_history` (keep the last
 `limit` raw rows; drop rows where either status is not `ok` or `fallback`
 or a numeric field does not parse, so `fallback` rows are kept; project six
 parallel arrays), `read_latest` and the `/api/latest` reply.
 */
module Dashboard {
  import opened Common

  /**
   One data line of the log as `csv.DictReader` yields it: column name to
   field. A column the line does not reach is absent (`DictReader` fills it
   with None).
   */
  type CsvRow = map<string, string>

  /** The log file: missing, or its data lines in file order. */
  datatype LogFile = Missing | Present(rows: seq<CsvRow>)

  /** The default `limit` of `read_history`, and the window `read_latest` uses. */
  const HistoryLimit: nat := 1000000
  const LatestLimit: nat := 500

  /**
   `dict(zip(header, fields))` as `DictReader` builds it: a field is filed
   under the header name at its position; a later name overrides an earlier one.
   */
  function DictRow(header: seq<string>, fields: seq<string>): CsvRow
  {
    if |header| == 0 || |fields| == 0 then map[]
    else
      var n := if |header| < |fields| then |header| else |fields|;
      DictRow(header[..n - 1], fields[..n - 1])[header[n - 1] := fields[n - 1]]
  }

  /** With distinct column names, each name maps to the field at its own position, and only names do. */
  lemma {:induction false} DictRowLookup(header: seq<string>, fields: seq<string>)
    requires |fields| == |header|
    requires forall i, j :: 0 <= i < j < |header| ==> header[i] != header[j]
    ensures forall k :: 0 <= k < |header| ==> header[k] in DictRow(header, fields) && DictRow(header, fields)[header[k]] == fields[k]
    ensures forall key :: key in DictRow(header, fields) ==> key in header
  {
    if |header| > 0 {
      var n := |header|;
      DictRowLookup(header[..n - 1], fields[..n - 1]);
      assert forall k :: 0 <= k < n - 1 ==> header[..n - 1][k] == header[k];
    }
  }

  /**
   Parsing, left abstract: `number` stands for `float()`, None where it
   raises; `clock` for `datetime.fromisoformat` followed by
   `strftime("%H:%M")`, None where the parse raises.
   */
  datatype Parsers = Parsers(number: string -> Option<real>, clock: string -> Option<string>)

  /** One surviving row; the label is JSON null when the row has no timestamp. */
  datatype Sample = Sample(stamp: Option<string>, pm1: real, pm25: real, pm10: real, temp: real, hum: real)

  /** The six parallel arrays of `/api/history`. */
  datatype History = History(
    labels: seq<Option<string>>,
    pm1: seq<real>, pm25: seq<real>, pm10: seq<real>,
    temp: seq<real>, hum: seq<real>)

  const NoHistory: History := History([], [], [], [], [], [])

  predicate Aligned(h: History)
  {
    && |h.pm1| == |h.labels| && |h.pm25| == |h.labels| && |h.pm10| == |h.labels|
    && |h.temp| == |h.labels| && |h.hum| == |h.labels|
  }

  /** `r.get(key)` */
  function Get(r: CsvRow, key: string): Option<string>
  {
    if key in r then Some(r[key]) else None
  }

  /** A status the charts accept: `ok` or `fallback`. */
  predicate Usable(status: Option<string>)
  {
    status == Some("ok") || status == Some("fallback")
  }

  /** The field under `key` parsed as a number; a missing field does not parse. */
  function Number(r: CsvRow, key: string, p: Parsers): Option<real>
  {
    match Get(r, key)
    case Some(text) => p.number(text)
    case None => None
  }

  /** The clock time HH:MM if the timestamp parses, else the timestamp itself. */
  function Label(ts: Option<string>, clock: string -> Option<string>): Option<string>
  {
    match ts
    case Some(text) => if clock(text).Some? then clock(text) else ts
    case None => None
  }

  /** A row the charts keep: both statuses usable and all five numeric fields parse. */
  predicate Survives(r: CsvRow, p: Parsers)
  {
    && Usable(Get(r, "dht_status")) && Usable(Get(r, "hm_status"))
    && Number(r, "pm1", p).Some? && Number(r, "pm2_5", p).Some? && Number(r, "pm10", p).Some?
    && Number(r, "temp_c", p).Some? && Number(r, "humidity", p).Some?
  }

  /**
   The filter and projection of one row: it survives exactly when both
   statuses are usable and all five numeric fields parse, and then carries
   its label and the five parsed numbers.
   */
  function Extract(r: CsvRow, p: Parsers): (s: Option<Sample>)
    ensures s.Some? <==> Survives(r, p)
    ensures s.Some? ==>
              && s.value.stamp == Label(Get(r, "timestamp"), p.clock)
              && Some(s.value.pm1) == Number(r, "pm1", p) && Some(s.value.pm25) == Number(r, "pm2_5", p)
              && Some(s.value.pm10) == Number(r, "pm10", p) && Some(s.value.temp) == Number(r, "temp_c", p)
              && Some(s.value.hum) == Number(r, "humidity", p)
  {
    if !Usable(Get(r, "dht_status")) then None
    else if !Usable(Get(r, "hm_status")) then None
    else
      var stamp := Label(Get(r, "timestamp"), p.clock);
      match (Number(r, "pm1", p), Number(r, "pm2_5", p), Number(r, "pm10", p), Number(r, "temp_c", p), Number(r, "humidity", p))
      case (Some(pm1), Some(pm25), Some(pm10), Some(temp), Some(hum)) => Some(Sample(stamp, pm1, pm25, pm10, temp, hum))
      case _ => None
  }

  /* ----- the raw-row window ----- */

  /** `deque(maxlen=limit)` fed every row in order: append, dropping the oldest once full. */
  function Window(rows: seq<CsvRow>, limit: nat): (w: seq<CsvRow>)
    ensures |w| <= limit
  {
    if |rows| == 0 then []
    else
      var kept := Window(rows[..|rows| - 1], limit) + [rows[|rows| - 1]];
      if |kept| > limit then kept[1..] else kept
  }

  /** The deque ends up holding exactly the last min(limit, n) rows. */
  lemma {:induction false} WindowIsSuffix(rows: seq<CsvRow>, limit: nat)
    ensures var keep := if |rows| < limit then |rows| else limit;
            Window(rows, limit) == rows[|rows| - keep..]
  {
    if |rows| > 0 {
      var n := |rows|;
      WindowIsSuffix(rows[..n - 1], limit);
      var prevKeep := if n - 1 < limit then n - 1 else limit;
      var kept := Window(rows[..n - 1], limit) + [rows[n - 1]];
      SuffixGrows(rows, n - 1 - prevKeep);
      assert kept == rows[n - 1 - prevKeep..];
      if |kept| > limit {
        assert kept[1..] == rows[n - prevKeep..];
      }
    }
  }

  lemma SuffixGrows<T>(xs: seq<T>, i: nat)
    requires i < |xs|
    ensures xs[..|xs| - 1][i..] + [xs[|xs| - 1]] == xs[i..]
  {
    var a, b := xs[..|xs| - 1][i..] + [xs[|xs| - 1]], xs[i..];
    assert |a| == |b|;
    forall k | 0 <= k < |a|
      ensures a[k] == b[k]
    {
    }
  }

  /* ----- filtering ----- */

  /** The per-row filter as a function value. */
  function KeepRow(p: Parsers): CsvRow -> Option<Sample>
  {
    r => Extract(r, p)
  }

  /** The surviving rows' samples, in file order. */
  function Select(rows: seq<CsvRow>, p: Parsers): seq<Sample>
  {
    FilterMap(KeepRow(p), rows)
  }

  /* ----- read_history ----- */

  /** Each of the six arrays extended by one sample's entry. */
  function Push(h: History, s: Sample): History
  {
    History(h.labels + [s.stamp], h.pm1 + [s.pm1], h.pm25 + [s.pm25], h.pm10 + [s.pm10], h.temp + [s.temp], h.hum + [s.hum])
  }

  /** The six parallel arrays of a list of samples. */
  function Columns(samples: seq<Sample>): (h: History)
    ensures Aligned(h) && |h.labels| == |samples|
  {
    if |samples| == 0 then NoHistory
    else Push(Columns(samples[..|samples| - 1]), samples[|samples| - 1])
  }

  /** The entries at position k of the six arrays are the k-th sample's fields. */
  lemma {:induction false} ColumnsAt(samples: seq<Sample>, k: nat)
    requires k < |samples|
    ensures var h := Columns(samples);
            Sample(h.labels[k], h.pm1[k], h.pm25[k], h.pm10[k], h.temp[k], h.hum[k]) == samples[k]
  {
    var n := |samples|;
    if k < n - 1 {
      ColumnsAt(samples[..n - 1], k);
    }
  }

  /** The six arrays of `a` followed by those of `b`. */
  function Concat(a: History, b: History): History
  {
    History(a.labels + b.labels, a.pm1 + b.pm1, a.pm25 + b.pm25, a.pm10 + b.pm10, a.temp + b.temp, a.hum + b.hum)
  }

  lemma PushConcat(a: History, b: History, s: Sample)
    ensures Push(Concat(a, b), s) == Concat(a, Push(b, s))
  {
    assert a.labels + b.labels + [s.stamp] == a.labels + (b.labels + [s.stamp]);
    assert a.pm1 + b.pm1 + [s.pm1] == a.pm1 + (b.pm1 + [s.pm1]);
    assert a.pm25 + b.pm25 + [s.pm25] == a.pm25 + (b.pm25 + [s.pm25]);
    assert a.pm10 + b.pm10 + [s.pm10] == a.pm10 + (b.pm10 + [s.pm10]);
    assert a.temp + b.temp + [s.temp] == a.temp + (b.temp + [s.temp]);
    assert a.hum + b.hum + [s.hum] == a.hum + (b.hum + [s.hum]);
  }

  /** Projecting a concatenation concatenates the projections, array by array. */
  lemma {:induction false} ColumnsSplit(xs: seq<Sample>, ys: seq<Sample>)
    ensures Columns(xs + ys) == Concat(Columns(xs), Columns(ys))
    decreases |ys|
  {
    var a := Columns(xs);
    if |ys| == 0 {
      assert xs + ys == xs;
      assert a.labels + [] == a.labels && a.pm1 + [] == a.pm1 && a.pm25 + [] == a.pm25;
      assert a.pm10 + [] == a.pm10 && a.temp + [] == a.temp && a.hum + [] == a.hum;
    } else {
      var n := |ys|;
      var zs := xs + ys;
      assert zs[..|zs| - 1] == xs + ys[..n - 1];
      assert zs[|zs| - 1] == ys[n - 1];
      ColumnsSplit(xs, ys[..n - 1]);
      PushConcat(a, Columns(ys[..n - 1]), ys[n - 1]);
    }
  }

  /**
   `read_history(limit)`: empty arrays for a missing file; otherwise the
   surviving rows among the last `limit` raw rows (window first, filter
   second), as six arrays of equal length in file order.
   */
  function ReadHistory(log: LogFile, limit: nat, p: Parsers): (h: History)
    ensures Aligned(h)
    ensures |h.labels| <= limit
    ensures log.Missing? ==> h == NoHistory
  {
    match log
    case Missing => NoHistory
    case Present(rows) => Columns(Select(Window(rows, limit), p))
  }

  /**
   The loop of `read_history` as written: six lists, each appended to exactly
   when a row survives, so they stay equally long; the result is `ReadHistory`.
   */
  method ReadHistoryLoop(log: LogFile, limit: nat, p: Parsers) returns (h: History)
    ensures Aligned(h)
    ensures h == ReadHistory(log, limit, p)
  {
    if log.Missing? {
      return NoHistory;
    }
    var rows := Window(log.rows, limit);
    var labels: seq<Option<string>> := [];
    var pm1List: seq<real> := [];
    var pm25List: seq<real> := [];
    var pm10List: seq<real> := [];
    var tempList: seq<real> := [];
    var humList: seq<real> := [];
    var i := 0;
    while i < |rows|
      invariant i <= |rows|
      invariant History(labels, pm1List, pm25List, pm10List, tempList, humList) == Columns(Select(rows[..i], p))
    {
      var prev := Select(rows[..i], p);
      assert rows[..i + 1][..i] == rows[..i];
      assert rows[..i + 1][i] == rows[i];
      match Extract(rows[i], p) {
        case Some(s) =>
          assert Select(rows[..i + 1], p) == prev + [s];
          assert (prev + [s])[..|prev|] == prev;
          labels := labels + [s.stamp];
          pm1List := pm1List + [s.pm1];
          pm25List := pm25List + [s.pm25];
          pm10List := pm10List + [s.pm10];
          tempList := tempList + [s.temp];
          humList := humList + [s.hum];
        case None =>
          assert Select(rows[..i + 1], p) == prev;
      }
      i := i + 1;
    }
    assert rows[..i] == rows;
    h := History(labels, pm1List, pm25List, pm10List, tempList, humList);
  }

  /** Index of the first raw row the window of `limit` rows keeps. */
  function WindowStart(n: nat, limit: nat): nat
  {
    if n < limit then 0 else n - limit
  }

  /** The k-th entry of the six arrays, as a sample. */
  function Entry(h: History, k: nat): Sample
    requires Aligned(h) && k < |h.labels|
  {
    Sample(h.labels[k], h.pm1[k], h.pm25[k], h.pm10[k], h.temp[k], h.hum[k])
  }

  /**
   The surviving rows of a suffix, located in the whole file: the k-th output
   comes from row `start + idx[k]`, positions increase, and every surviving
   row from `start` on is among them.
   */
  lemma SuffixSubsequence(rows: seq<CsvRow>, start: nat, p: Parsers)
    requires start <= |rows|
    ensures var out, idx := Select(rows[start..], p), KeptPositions(KeepRow(p), rows[start..]);
            && |idx| == |out|
            && (forall k :: 0 <= k < |idx| ==> start + idx[k] < |rows| && Extract(rows[start + idx[k]], p) == Some(out[k]))
            && (forall k, l :: 0 <= k < l < |idx| ==> idx[k] < idx[l])
            && (forall i :: start <= i < |rows| && Extract(rows[i], p).Some? ==> i - start in idx)
  {
    var w := rows[start..];
    FilterMapSubsequence(KeepRow(p), w);
    assert forall i :: start <= i < |rows| ==> w[i - start] == rows[i];
  }

  /**
   The window is applied before the filter: the k-th entry of the output is
   the k-th surviving row among the last min(limit, n) raw rows (located in
   the file by `SuffixSubsequence`).
   */
  lemma HistoryFromLastRows(rows: seq<CsvRow>, limit: nat, p: Parsers)
    ensures var h, out := ReadHistory(Present(rows), limit, p), Select(rows[WindowStart(|rows|, limit)..], p);
            && |h.labels| == |out|
            && forall k :: 0 <= k < |out| ==> Entry(h, k) == out[k]
  {
    var start := WindowStart(|rows|, limit);
    WindowIsSuffix(rows, limit);
    var out := Select(rows[start..], p);
    var h := ReadHistory(Present(rows), limit, p);
    assert h == Columns(out);
    forall k | 0 <= k < |out|
      ensures Entry(h, k) == out[k]
    {
      ColumnsAt(out, k);
    }
  }

  lemma SliceSplit<T>(xs: seq<T>, i: nat, j: nat)
    requires i <= j <= |xs|
    ensures xs[i..] == xs[i..j] + xs[j..]
  {
  }

  lemma TailOfConcat<T>(xs: seq<T>, ys: seq<T>)
    ensures (xs + ys)[|xs|..] == ys
  {
  }

  /** Every array of `a` is the suffix of the same array of the aligned `b` of its own length. */
  predicate TailOf(a: History, b: History)
  {
    var d := |b.labels| - |a.labels|;
    && Aligned(b) && d >= 0
    && a.labels == b.labels[d..] && a.pm1 == b.pm1[d..] && a.pm25 == b.pm25[d..]
    && a.pm10 == b.pm10[d..] && a.temp == b.temp[d..] && a.hum == b.hum[d..]
  }

  /** The columns of `ys` are the tails of the columns of `xs + ys`. */
  lemma ColumnsTail(xs: seq<Sample>, ys: seq<Sample>)
    ensures TailOf(Columns(ys), Columns(xs + ys))
  {
    ColumnsSplit(xs, ys);
    var a, c := Columns(ys), Columns(xs);
    assert Columns(xs + ys) == Concat(c, a);
    TailOfConcat(c.labels, a.labels);
    TailOfConcat(c.pm1, a.pm1);
    TailOfConcat(c.pm25, a.pm25);
    TailOfConcat(c.pm10, a.pm10);
    TailOfConcat(c.temp, a.temp);
    TailOfConcat(c.hum, a.hum);
  }

  /** Selecting from `extra + ws` gives the columns of `ws` at the tail. */
  lemma SelectTail(extra: seq<CsvRow>, ws: seq<CsvRow>, p: Parsers)
    ensures TailOf(Columns(Select(ws, p)), Columns(Select(extra + ws, p)))
  {
    FilterMapAppend(KeepRow(p), extra, ws);
    var xs, ys := Select(extra, p), Select(ws, p);
    assert Select(extra + ws, p) == xs + ys;
    ColumnsTail(xs, ys);
  }

  /** The window of `large` rows is the window of `small` rows with older rows in front. */
  lemma WindowsSplit(rows: seq<CsvRow>, small: nat, large: nat)
    requires small <= large
    ensures var i, j := WindowStart(|rows|, large), WindowStart(|rows|, small);
            && i <= j <= |rows|
            && Window(rows, small) == rows[j..]
            && Window(rows, large) == rows[i..j] + rows[j..]
  {
    var i, j := WindowStart(|rows|, large), WindowStart(|rows|, small);
    WindowIsSuffix(rows, small);
    WindowIsSuffix(rows, large);
    SliceSplit(rows, i, j);
  }

  /**
   A smaller window shows the tail of what a larger one shows: every array of
   the smaller history is a suffix of the same array of the larger.
   */
  lemma HistoryWindowsNest(log: LogFile, small: nat, large: nat, p: Parsers)
    requires small <= large
    ensures TailOf(ReadHistory(log, small, p), ReadHistory(log, large, p))
  {
    if log.Present? {
      var rows := log.rows;
      var i, j := WindowStart(|rows|, large), WindowStart(|rows|, small);
      WindowsSplit(rows, small, large);
      SelectTail(rows[i..j], rows[j..], p);
      assert ReadHistory(log, small, p) == Columns(Select(rows[j..], p));
      assert ReadHistory(log, large, p) == Columns(Select(rows[i..j] + rows[j..], p));
    }
  }

  /* ----- read_latest and /api/latest ----- */

  /** The object `read_latest` returns: the last entry of each array. */
  datatype Latest = Latest(time: Option<string>, pm1: real, pm25: real, pm10: real, temp: real, hum: real)

  /** The 500-row history is empty exactly when the file is missing or nothing among its last 500 rows survives. */
  lemma LatestWindowEmptyIff(log: LogFile, p: Parsers)
    ensures |ReadHistory(log, LatestLimit, p).labels| == 0 <==>
              log.Missing? ||
              forall i :: WindowStart(|log.rows|, LatestLimit) <= i < |log.rows| ==> Extract(log.rows[i], p).None?
  {
    if log.Present? {
      WindowIsSuffix(log.rows, LatestLimit);
      SuffixEmptyIff(log.rows, WindowStart(|log.rows|, LatestLimit), p);
    }
  }

  /** `read_latest`: None when nothing survives in the last 500 raw rows, else the last entry of each array. */
  function ReadLatest(log: LogFile, p: Parsers): (latest: Option<Latest>)
    ensures latest.None? <==>
              log.Missing? ||
              forall i :: WindowStart(|log.rows|, LatestLimit) <= i < |log.rows| ==> Extract(log.rows[i], p).None?
  {
    LatestWindowEmptyIff(log, p);
    var h := ReadHistory(log, LatestLimit, p);
    if |h.labels| == 0 then None
    else
      var n := |h.labels| - 1;
      Some(Latest(h.labels[n], h.pm1[n], h.pm25[n], h.pm10[n], h.temp[n], h.hum[n]))
  }

  function LatestOf(s: Sample): Latest
  {
    Latest(s.stamp, s.pm1, s.pm25, s.pm10, s.temp, s.hum)
  }

  /** Nothing from row `start` on survives exactly when the suffix's output is empty. */
  lemma SuffixEmptyIff(rows: seq<CsvRow>, start: nat, p: Parsers)
    requires start <= |rows|
    ensures |Select(rows[start..], p)| == 0 <==> forall i :: start <= i < |rows| ==> Extract(rows[i], p).None?
  {
    var w := rows[start..];
    FilterMapEmptyIff(KeepRow(p), w);
    assert forall i :: start <= i < |rows| ==> w[i - start] == rows[i];
  }

  /** The last output of a suffix comes from the file's last surviving row. */
  lemma SuffixLast(rows: seq<CsvRow>, start: nat, p: Parsers) returns (i: nat)
    requires start <= |rows|
    requires |Select(rows[start..], p)| > 0
    ensures start <= i < |rows|
    ensures Extract(rows[i], p) == Some(Select(rows[start..], p)[|Select(rows[start..], p)| - 1])
    ensures forall k :: i < k < |rows| ==> Extract(rows[k], p).None?
  {
    var w := rows[start..];
    var j := FilterMapLast(KeepRow(p), w);
    i := start + j;
    assert rows[i] == w[j];
    forall k | i < k < |rows|
      ensures Extract(rows[k], p).None?
    {
      assert rows[k] == w[k - start];
    }
  }

  /**
   `read_latest` is None exactly when the file is missing or no row among its
   last 500 raw rows survives; otherwise it is the file's last surviving row,
   which then lies among the last 500.
   */
  lemma LatestIsLastSurvivor(log: LogFile, p: Parsers)
    ensures ReadLatest(log, p).None? <==>
              log.Missing? ||
              forall i :: WindowStart(|log.rows|, LatestLimit) <= i < |log.rows| ==> Extract(log.rows[i], p).None?
    ensures ReadLatest(log, p).Some? ==>
              exists i :: WindowStart(|log.rows|, LatestLimit) <= i < |log.rows|
                          && Extract(log.rows[i], p).Some?
                          && LatestOf(Extract(log.rows[i], p).value) == ReadLatest(log, p).value
                          && forall k :: i < k < |log.rows| ==> Extract(log.rows[k], p).None?
  {
    if log.Present? {
      var rows := log.rows;
      var start := WindowStart(|rows|, LatestLimit);
      WindowIsSuffix(rows, LatestLimit);
      SuffixEmptyIff(rows, start, p);
      var out := Select(rows[start..], p);
      var h := ReadHistory(log, LatestLimit, p);
      assert h == Columns(out);
      if |out| > 0 {
        var i := SuffixLast(rows, start, p);
        ColumnsAt(out, |out| - 1);
        assert LatestOf(out[|out| - 1]) == ReadLatest(log, p).value;
      }
    }
  }

  /** `read_latest`, when it answers, agrees with the last entry of the full `/api/history`. */
  lemma LatestMatchesHistory(log: LogFile, p: Parsers)
    requires ReadLatest(log, p).Some?
    ensures var h := ReadHistory(log, HistoryLimit, p);
            |h.labels| > 0 &&
            ReadLatest(log, p).value
            == Latest(h.labels[|h.labels| - 1], h.pm1[|h.labels| - 1], h.pm25[|h.labels| - 1],
                      h.pm10[|h.labels| - 1], h.temp[|h.labels| - 1], h.hum[|h.labels| - 1])
  {
    HistoryWindowsNest(log, LatestLimit, HistoryLimit, p);
  }

  datatype Body = LatestBody(latest: Latest) | ErrorBody(error: string)

  datatype Reply = Reply(code: nat, body: Body)

  /** `/api/latest`: 404 with `{"error": "no data yet"}` when there is no latest sample, else 200 with it. */
  function ApiLatest(log: LogFile, p: Parsers): (reply: Reply)
    ensures reply.code == 404 <==> ReadLatest(log, p).None?
    ensures reply.code == 404 ==> reply.body == ErrorBody("no data yet")
    ensures reply.code != 404 ==> reply == Reply(200, LatestBody(ReadLatest(log, p).value))
  {
    match ReadLatest(log, p)
    case None => Reply(404, ErrorBody("no data yet"))
    case Some(latest) => Reply(200, LatestBody(latest))
  }

  /** A missing or empty log answers `/api/latest` with 404. */
  lemma EmptyLogAnswersNotFound(p: Parsers)
    ensures ApiLatest(Missing, p) == Reply(404, ErrorBody("no data yet"))
    ensures ApiLatest(Present([]), p) == Reply(404, ErrorBody("no data yet"))
  {
  }
}
