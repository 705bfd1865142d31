/**
 The log file couples the sampler and the dashboard: a row the sampler
 writes is read back by the dashboard under the header's column names. This
 module follows one record through that round trip.
 */
module LogRoundTrip {
  import opened Common
  import SensorLogger
  import Dashboard

  /** The dictionary the dashboard reads back for one row the sampler wrote. */
  function ReadBack(r: SensorLogger.Record, fmts: SensorLogger.Formats): Dashboard.CsvRow
  {
    Dashboard.DictRow(SensorLogger.Header, SensorLogger.Row(r, fmts))
  }

  /** Every number the sampler formats parses back as a number. */
  ghost predicate Parseable(fmts: SensorLogger.Formats, p: Dashboard.Parsers)
  {
    forall x: real :: p.number(fmts.pm(x)).Some? && p.number(fmts.climate(x)).Some?
  }

  /** Each column name reads back exactly the field the sampler wrote for it. */
  lemma ReadBackColumns(r: SensorLogger.Record, fmts: SensorLogger.Formats)
    ensures forall k :: 0 <= k < |SensorLogger.Header| ==>
              Dashboard.Get(ReadBack(r, fmts), SensorLogger.Header[k])
              == Some(SensorLogger.Column(r, SensorLogger.Header[k], fmts))
  {
    SensorLogger.HeaderDistinct();
    Dashboard.DictRowLookup(SensorLogger.Header, SensorLogger.Row(r, fmts));
  }

  /** Only `ok` and `fallback` are usable labels. */
  lemma UsableIff(s: Status)
    ensures Dashboard.Usable(Some(StatusName(s))) <==> s != Error
  {
    StatusNameInjective(s, Ok);
    StatusNameInjective(s, Fallback);
  }

  /**
   A consistent record written with parseable formatting is shown by the
   dashboard exactly when neither sensor reported `error`, and then with its
   status-independent label and the parsed formatted values.
   */
  lemma WrittenRowShownIff(r: SensorLogger.Record, fmts: SensorLogger.Formats, p: Dashboard.Parsers)
    requires SensorLogger.Consistent(r)
    requires Parseable(fmts, p)
    ensures Dashboard.Extract(ReadBack(r, fmts), p).Some? <==> r.dhtStatus != Error && r.hmStatus != Error
    ensures Dashboard.Extract(ReadBack(r, fmts), p).Some? ==>
              Dashboard.Extract(ReadBack(r, fmts), p).value
              == Dashboard.Sample(Dashboard.Label(Some(r.timestamp), p.clock),
                                  p.number(fmts.pm(r.pm1.value)).value, p.number(fmts.pm(r.pm25.value)).value,
                                  p.number(fmts.pm(r.pm10.value)).value, p.number(fmts.climate(r.temp.value)).value,
                                  p.number(fmts.climate(r.hum.value)).value)
  {
    ReadBackColumns(r, fmts);
    var row := ReadBack(r, fmts);
    var h := SensorLogger.Header;
    assert h[0] == "timestamp" && h[1] == "pm1" && h[2] == "pm2_5" && h[3] == "pm10";
    assert h[4] == "temp_c" && h[5] == "humidity" && h[6] == "dht_status" && h[7] == "hm_status";
    assert Dashboard.Get(row, "dht_status") == Some(StatusName(r.dhtStatus));
    assert Dashboard.Get(row, "hm_status") == Some(StatusName(r.hmStatus));
    UsableIff(r.dhtStatus);
    UsableIff(r.hmStatus);
  }

  /**
   Over any run of the sampler from process start, a logged record reaches the
   charts exactly when neither of its statuses is `error`.
   */
  lemma RunRecordsShownIff(inputs: seq<SensorLogger.TickInput>, fmts: SensorLogger.Formats, p: Dashboard.Parsers)
    requires Parseable(fmts, p)
    ensures forall r :: r in SensorLogger.Run(SensorLogger.Start, inputs).records ==>
              (Dashboard.Extract(ReadBack(r, fmts), p).Some? <==> r.dhtStatus != Error && r.hmStatus != Error)
  {
    SensorLogger.RunConsistent(SensorLogger.Start, inputs);
    forall r | r in SensorLogger.Run(SensorLogger.Start, inputs).records
      ensures Dashboard.Extract(ReadBack(r, fmts), p).Some? <==> r.dhtStatus != Error && r.hmStatus != Error
    {
      WrittenRowShownIff(r, fmts, p);
    }
  }
}
