/**
 The sampler loop of `sensor_logger.py`: the logging cadence, one tick
 (both sensor reads, the record, the last-known-good state), the log row in
 header order, and runs of many ticks.
 */
module SensorLogger {
  import opened Common
  import Hm3301
  import Dht22

  /** Seconds between log records (`LOG_INTERVAL`). */
  const LogInterval: real := 60.0

  /** The log's header row: the fixed column order of every record. */
  const Header: seq<string> :=
    ["timestamp", "pm1", "pm2_5", "pm10", "temp_c", "humidity", "dht_status", "hm_status"]

  lemma HeaderDistinct()
    ensures forall i, j :: 0 <= i < j < |Header| ==> Header[i] != Header[j]
  {
  }

  /** The values of one log record before formatting: absent values are None. */
  datatype Record = Record(
    timestamp: string,
    pm1: Option<real>, pm25: Option<real>, pm10: Option<real>,
    temp: Option<real>, hum: Option<real>,
    dhtStatus: Status, hmStatus: Status)

  function MakeRecord(timestamp: string, dht: Dht22.DhtResult, hm: Hm3301.HmResult): Record
  {
    Record(timestamp, hm.pm1, hm.pm25, hm.pm10, dht.temp, dht.hum, dht.status, hm.status)
  }

  /** A sensor's values are present exactly when its status is not `error`. */
  predicate Consistent(r: Record)
  {
    && (r.pm1.Some? <==> r.hmStatus != Error)
    && (r.pm25.Some? <==> r.hmStatus != Error)
    && (r.pm10.Some? <==> r.hmStatus != Error)
    && (r.temp.Some? <==> r.dhtStatus != Error)
    && (r.hum.Some? <==> r.dhtStatus != Error)
  }

  /* ----- the log row ----- */

  /** A non-empty string: what fixed-precision formatting of a number yields. */
  type Text = s: string | |s| > 0 witness "0"

  /**
   Number formatting, left abstract: `pm` stands for one decimal place
   (`:.1f`), `climate` for two (`:.2f`).
   */
  datatype Formats = Formats(pm: real -> Text, climate: real -> Text)

  /** A present value is formatted; an absent one becomes the empty field. */
  function Cell(v: Option<real>, format: real -> Text): (cell: string)
    ensures cell == "" <==> v.None?
    ensures v.Some? ==> cell == format(v.value)
  {
    match v
    case Some(x) => format(x)
    case None => ""
  }

  /** What the column with the given header name holds for a record. */
  function Column(r: Record, name: string, fmts: Formats): string
  {
    if name == "timestamp" then r.timestamp
    else if name == "pm1" then Cell(r.pm1, fmts.pm)
    else if name == "pm2_5" then Cell(r.pm25, fmts.pm)
    else if name == "pm10" then Cell(r.pm10, fmts.pm)
    else if name == "temp_c" then Cell(r.temp, fmts.climate)
    else if name == "humidity" then Cell(r.hum, fmts.climate)
    else if name == "dht_status" then StatusName(r.dhtStatus)
    else if name == "hm_status" then StatusName(r.hmStatus)
    else ""
  }

  /** The row appended to the log: one field per header column, in header order. */
  function Row(r: Record, fmts: Formats): (row: seq<string>)
    ensures |row| == |Header|
    ensures forall k :: 0 <= k < |Header| ==> row[k] == Column(r, Header[k], fmts)
  {
    [ r.timestamp,
      Cell(r.pm1, fmts.pm), Cell(r.pm25, fmts.pm), Cell(r.pm10, fmts.pm),
      Cell(r.temp, fmts.climate), Cell(r.hum, fmts.climate),
      StatusName(r.dhtStatus), StatusName(r.hmStatus) ]
  }

  /* ----- cadence and one tick ----- */

  /** A record is due when `LogInterval` seconds have passed since the last one was started. */
  predicate Due(now: real, lastLogTime: real)
  {
    now - lastLogTime >= LogInterval
  }

  /**
   One pass of the loop: `now` is the clock read at its start, `timestamp` the
   wall-clock string taken once the record is due, and `dht` / `hm` the
   outcomes of the successive attempts of each sensor's read.
   */
  datatype TickInput = TickInput(
    now: real,
    timestamp: string,
    dht: nat -> Dht22.DhtRead,
    hm: nat -> Hm3301.BlockRead)

  /** Everything the sampler carries from one pass to the next. */
  datatype LoggerState = LoggerState(dht: Dht22.DhtMemory, hm: Hm3301.HmMemory, lastLogTime: real)

  /** At process start nothing is stored and `last_log_time` is 0. */
  const Start: LoggerState := LoggerState(Dht22.Empty, Hm3301.Empty, 0.0)

  predicate Coherent(st: LoggerState)
  {
    Dht22.Coherent(st.dht) && Hm3301.Coherent(st.hm)
  }

  datatype TickOutcome = TickOutcome(record: Option<Record>, state: LoggerState)

  /**
   One pass: when due, read the DHT22 then the HM3301 with their default
   numbers of attempts, build the record, and set `last_log_time` to the `now`
   sampled before the reads.
   */
  function Tick(st: LoggerState, inp: TickInput): (out: TickOutcome)
    ensures out.record.Some? <==> Due(inp.now, st.lastLogTime)
    ensures out.record.None? ==> out.state == st
    ensures out.record.Some? ==> out.state.lastLogTime == inp.now
  {
    if !Due(inp.now, st.lastLogTime) then TickOutcome(None, st)
    else
      var d := Dht22.ReadDht22(inp.dht, Dht22.DefaultTries, st.dht);
      var h := Hm3301.ReadHm3301(inp.hm, Hm3301.DefaultTries, st.hm);
      TickOutcome(Some(MakeRecord(inp.timestamp, d.result, h.result)), LoggerState(d.memory, h.memory, inp.now))
  }

  /** A logged tick keeps both stored states coherent and writes a consistent record. */
  lemma TickCoherent(st: LoggerState, inp: TickInput)
    requires Coherent(st)
    ensures Coherent(Tick(st, inp).state)
    ensures Tick(st, inp).record.Some? ==> Consistent(Tick(st, inp).record.value)
  {
    Dht22.CoherencePreserved(inp.dht, Dht22.DefaultTries, st.dht);
    Hm3301.CoherencePreserved(inp.hm, Hm3301.DefaultTries, st.hm);
  }

  /**
   After a logged tick whose sensor status is not `error`, that sensor's stored
   values are exactly the values the record carries.
   */
  lemma StoredMatchesRecord(st: LoggerState, inp: TickInput)
    requires Due(inp.now, st.lastLogTime)
    ensures var r, m := Tick(st, inp).record.value, Tick(st, inp).state;
            && (r.hmStatus != Error ==> m.hm == Hm3301.HmMemory(r.pm1, r.pm25, r.pm10))
            && (r.dhtStatus != Error ==> m.dht == Dht22.DhtMemory(r.temp, r.hum))
  {
  }

  /**
   A tick whose attempts all fail for a sensor, after a tick that recorded that
   sensor without `error`, records `fallback` with the earlier record's values
   verbatim and leaves the stored values as they were.
   */
  lemma FallbackRepeatsLastValues(st: LoggerState, first: TickInput, second: TickInput)
    requires Due(first.now, st.lastLogTime)
    requires Due(second.now, first.now)
    ensures var a, mid := Tick(st, first).record.value, Tick(st, first).state;
            var b, last := Tick(mid, second).record.value, Tick(mid, second).state;
            && (a.hmStatus != Error && (forall j :: 0 <= j < Hm3301.DefaultTries ==> Hm3301.Attempt(second.hm(j)).None?)
                ==> b.hmStatus == Fallback && (b.pm1, b.pm25, b.pm10) == (a.pm1, a.pm25, a.pm10) && last.hm == mid.hm)
            && (a.dhtStatus != Error && (forall j :: 0 <= j < Dht22.DefaultTries ==> Dht22.Attempt(second.dht(j)).None?)
                ==> b.dhtStatus == Fallback && (b.temp, b.hum) == (a.temp, a.hum) && last.dht == mid.dht)
  {
    StoredMatchesRecord(st, first);
  }

  /* ----- the tick as written: the caller unpacks three values ----- */

  /** `temp, hum, dht_status = read_dht22()`: a four-value result raises a ValueError. */
  function Unpack3(ret: Dht22.DhtReturn): Option<Dht22.DhtResult>
  {
    match ret
    case Triple(temp, hum, status) => Some(Dht22.DhtResult(temp, hum, status))
    case Quad(_, _, _, _) => None
  }

  /**
   A pass of the loop as written: either it completes, or the unpacking error
   escapes the loop (only a keyboard interrupt is caught there) and the logger
   stops after closing the bus.
   */
  datatype LoopStep = Continue(outcome: TickOutcome) | Crash

  function TickAsWritten(st: LoggerState, inp: TickInput): (step: LoopStep)
    ensures step.Crash? <==>
              && Due(inp.now, st.lastLogTime)
              && (forall j :: 0 <= j < Dht22.DefaultTries ==> Dht22.Attempt(inp.dht(j)).None?)
              && st.dht.temp.None?
  {
    if !Due(inp.now, st.lastLogTime) then Continue(TickOutcome(None, st))
    else
      var d := Dht22.ReadDht22AsWritten(inp.dht, Dht22.DefaultTries, st.dht);
      match Unpack3(d.returned)
      case None => Crash
      case Some(dht) =>
        var h := Hm3301.ReadHm3301(inp.hm, Hm3301.DefaultTries, st.hm);
        Continue(TickOutcome(Some(MakeRecord(inp.timestamp, dht, h.result)), LoggerState(d.memory, h.memory, inp.now)))
  }

  /**
   The pass as written stops the logger exactly when a record is due, every
   DHT22 attempt fails and no temperature was ever stored; otherwise it does
   what `Tick` does.
   */
  lemma TickAsWrittenCrashesIff(st: LoggerState, inp: TickInput)
    ensures TickAsWritten(st, inp).Crash? <==>
              && Due(inp.now, st.lastLogTime)
              && (forall j :: 0 <= j < Dht22.DefaultTries ==> Dht22.Attempt(inp.dht(j)).None?)
              && st.dht.temp.None?
    ensures TickAsWritten(st, inp).Continue? ==> TickAsWritten(st, inp) == Continue(Tick(st, inp))
  {
    Dht22.AsWrittenArity(inp.dht, Dht22.DefaultTries, st.dht);
  }

  /** Attempt outcomes of a sensor that never answers. */
  function SilentDht(j: nat): Dht22.DhtRead { Dht22.SensorFault }
  function SilentHm(j: nat): Hm3301.BlockRead { Hm3301.BusFault }

  /** The first due tick of a process whose DHT22 gives no reading stops the logger as written. */
  lemma FirstTickWithoutDhtReadingCrashes()
    ensures TickAsWritten(Start, TickInput(1000.0, "2024-05-01T12:00:00", SilentDht, SilentHm)) == Crash
  {
    TickAsWrittenCrashesIff(Start, TickInput(1000.0, "2024-05-01T12:00:00", SilentDht, SilentHm));
  }

  /**
   With the three-value `error` result, that same first tick is logged: both
   statuses `error` and all five numeric fields empty.
   */
  lemma FirstTickTotalOutageIsLogged(inp: TickInput, fmts: Formats)
    requires Due(inp.now, Start.lastLogTime)
    requires forall j :: 0 <= j < Dht22.DefaultTries ==> Dht22.Attempt(inp.dht(j)).None?
    requires forall j :: 0 <= j < Hm3301.DefaultTries ==> Hm3301.Attempt(inp.hm(j)).None?
    ensures Tick(Start, inp).record == Some(Record(inp.timestamp, None, None, None, None, None, Error, Error))
    ensures Row(Tick(Start, inp).record.value, fmts)
            == [inp.timestamp, "", "", "", "", "", "error", "error"]
  {
  }

  /* ----- runs of many passes ----- */

  /** The records written over a run, the `now` of each, and the final state. */
  datatype RunOutcome = RunOutcome(records: seq<Record>, times: seq<real>, state: LoggerState)

  function Run(st: LoggerState, inputs: seq<TickInput>): (out: RunOutcome)
    ensures |out.records| == |out.times| <= |inputs|
    decreases |inputs|
  {
    if |inputs| == 0 then RunOutcome([], [], st)
    else
      var t := Tick(st, inputs[0]);
      var rest := Run(t.state, inputs[1..]);
      match t.record
      case Some(r) => RunOutcome([r] + rest.records, [inputs[0].now] + rest.times, rest.state)
      case None => rest
  }

  /** Consecutive start times at least `LogInterval` apart. */
  predicate Spaced(times: seq<real>)
  {
    forall k :: 0 <= k < |times| - 1 ==> times[k + 1] - times[k] >= LogInterval
  }

  lemma SpacedCons(t: real, rest: seq<real>)
    requires Spaced(rest)
    requires |rest| > 0 ==> rest[0] - t >= LogInterval
    ensures Spaced([t] + rest)
  {
    var ts := [t] + rest;
    forall k | 0 <= k < |ts| - 1
      ensures ts[k + 1] - ts[k] >= LogInterval
    {
      assert ts[k + 1] == rest[k];
      if k > 0 {
        assert ts[k] == rest[k - 1];
      }
    }
  }

  /**
   At most one record per interval: the first record starts at least
   `LogInterval` after `last_log_time`, each later one at least `LogInterval`
   after the start of the one before, and the final `last_log_time` is the
   start of the last record.
   */
  lemma {:induction false} RunCadence(st: LoggerState, inputs: seq<TickInput>)
    ensures var out := Run(st, inputs);
            && (|out.times| > 0 ==> out.times[0] - st.lastLogTime >= LogInterval)
            && Spaced(out.times)
            && out.state.lastLogTime == (if |out.times| == 0 then st.lastLogTime else out.times[|out.times| - 1])
    decreases |inputs|
  {
    if |inputs| > 0 {
      var t := Tick(st, inputs[0]);
      RunCadence(t.state, inputs[1..]);
      var rest := Run(t.state, inputs[1..]);
      if t.record.Some? {
        SpacedCons(inputs[0].now, rest.times);
        assert Run(st, inputs).times == [inputs[0].now] + rest.times;
      } else {
        assert Run(st, inputs) == rest;
      }
    }
  }

  /** Coherent stored state stays coherent over a run, and every record is consistent. */
  lemma {:induction false} RunConsistent(st: LoggerState, inputs: seq<TickInput>)
    requires Coherent(st)
    ensures Coherent(Run(st, inputs).state)
    ensures forall r :: r in Run(st, inputs).records ==> Consistent(r)
    decreases |inputs|
  {
    if |inputs| > 0 {
      TickCoherent(st, inputs[0]);
      RunConsistent(Tick(st, inputs[0]).state, inputs[1..]);
    }
  }

  /** Once a sensor has a stored value, no later record of a run has `error` for it. */
  lemma {:induction false} StoredRulesOutError(st: LoggerState, inputs: seq<TickInput>)
    ensures st.hm.pm1.Some? ==>
              Run(st, inputs).state.hm.pm1.Some? && forall r :: r in Run(st, inputs).records ==> r.hmStatus != Error
    ensures st.dht.temp.Some? ==>
              Run(st, inputs).state.dht.temp.Some? && forall r :: r in Run(st, inputs).records ==> r.dhtStatus != Error
    decreases |inputs|
  {
    if |inputs| > 0 {
      StoredRulesOutError(Tick(st, inputs[0]).state, inputs[1..]);
    }
  }

  /** A logged status other than `error` leaves a stored value behind. */
  lemma NonErrorIsStored(st: LoggerState, inp: TickInput)
    requires Due(inp.now, st.lastLogTime)
    ensures Tick(st, inp).record.value.hmStatus != Error ==> Tick(st, inp).state.hm.pm1.Some?
    ensures Tick(st, inp).record.value.dhtStatus != Error ==> Tick(st, inp).state.dht.temp.Some?
  {
  }

  /** `error` for the HM3301 never follows a non-`error` record. */
  predicate HmSettled(rs: seq<Record>)
  {
    forall i, j :: 0 <= i < j < |rs| && rs[i].hmStatus != Error ==> rs[j].hmStatus != Error
  }

  /** `error` for the DHT22 never follows a non-`error` record. */
  predicate DhtSettled(rs: seq<Record>)
  {
    forall i, j :: 0 <= i < j < |rs| && rs[i].dhtStatus != Error ==> rs[j].dhtStatus != Error
  }

  lemma HmSettledCons(r: Record, rest: seq<Record>)
    requires HmSettled(rest)
    requires r.hmStatus != Error ==> forall x :: x in rest ==> x.hmStatus != Error
    ensures HmSettled([r] + rest)
  {
    var rs := [r] + rest;
    forall i, j | 0 <= i < j < |rs| && rs[i].hmStatus != Error
      ensures rs[j].hmStatus != Error
    {
      assert rs[j] == rest[j - 1];
      if i > 0 {
        assert rs[i] == rest[i - 1];
      }
    }
  }

  lemma DhtSettledCons(r: Record, rest: seq<Record>)
    requires DhtSettled(rest)
    requires r.dhtStatus != Error ==> forall x :: x in rest ==> x.dhtStatus != Error
    ensures DhtSettled([r] + rest)
  {
    var rs := [r] + rest;
    forall i, j | 0 <= i < j < |rs| && rs[i].dhtStatus != Error
      ensures rs[j].dhtStatus != Error
    {
      assert rs[j] == rest[j - 1];
      if i > 0 {
        assert rs[i] == rest[i - 1];
      }
    }
  }

  /**
   `error` for each sensor only before its first non-`error` record: once a
   record of a run has a reading or a fallback for a sensor, no later record
   has `error` for it.
   */
  lemma {:induction false} NoErrorAfterReading(st: LoggerState, inputs: seq<TickInput>)
    ensures HmSettled(Run(st, inputs).records)
    ensures DhtSettled(Run(st, inputs).records)
    decreases |inputs|
  {
    if |inputs| > 0 {
      var t := Tick(st, inputs[0]);
      NoErrorAfterReading(t.state, inputs[1..]);
      var rest := Run(t.state, inputs[1..]).records;
      if t.record.Some? {
        NonErrorIsStored(st, inputs[0]);
        StoredRulesOutError(t.state, inputs[1..]);
        HmSettledCons(t.record.value, rest);
        DhtSettledCons(t.record.value, rest);
        assert Run(st, inputs).records == [t.record.value] + rest;
      } else {
        assert Run(st, inputs).records == rest;
      }
    }
  }
}
