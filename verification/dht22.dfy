/**
 The temperature / humidity sensor (DHT22 on one GPIO wire): the per-tick
 retry / average / fallback policy of `read_dht22` over the two
 last-known-good values, both as written (its `error` path returns four
 values) and with the three-value result its callers expect.
 */
module Dht22 {
  import opened Common

  /** Attempts per call (the default of `max_tries`). */
  const DefaultTries: nat := 5

  /**
   Outcome of one attempt: the two properties as read (either may be None,
   the driver's "no data" signal), or a raised driver fault.
   */
  datatype DhtRead = Values(t: Option<real>, h: Option<real>) | SensorFault

  datatype DhtSample = DhtSample(temp: real, hum: real)

  /** An attempt counts only when both temperature and humidity are present. */
  function Attempt(r: DhtRead): Option<DhtSample>
  {
    match r
    case Values(Some(t), Some(h)) => Some(DhtSample(t, h))
    case _ => None
  }

  /** The process-wide last-known-good values `last_temp` and `last_hum`. */
  datatype DhtMemory = DhtMemory(temp: Option<real>, hum: Option<real>)

  const Empty: DhtMemory := DhtMemory(None, None)

  /** Both stored values are present or both absent. */
  predicate Coherent(m: DhtMemory)
  {
    m.temp.Some? == m.hum.Some?
  }

  /** The three-value result `(temp_c, humidity, status)` the callers unpack. */
  datatype DhtResult = DhtResult(temp: Option<real>, hum: Option<real>, status: Status)

  datatype DhtOutcome = DhtOutcome(result: DhtResult, memory: DhtMemory)

  function TempValues(samples: seq<DhtSample>): seq<real>
  {
    seq(|samples|, i requires 0 <= i < |samples| => samples[i].temp)
  }

  function HumValues(samples: seq<DhtSample>): seq<real>
  {
    seq(|samples|, i requires 0 <= i < |samples| => samples[i].hum)
  }

  /** The valid samples of one call's `maxTries` attempts. */
  function Samples(attempt: nat -> DhtRead, maxTries: nat): seq<DhtSample>
  {
    Collect(Attempt, attempt, maxTries)
  }

  /**
   One call of `read_dht22` with a three-value `error` result: all `maxTries`
   attempts, then `ok` with the two means (stored as the new last-known-good
   values) if any attempt was valid, else `fallback` with the stored values if
   `last_temp` is set, else `error` with both values absent.
   */
  function ReadDht22(attempt: nat -> DhtRead, maxTries: nat, memory: DhtMemory): (out: DhtOutcome)
    ensures out.result.status == Ok <==> exists j :: 0 <= j < maxTries && Attempt(attempt(j)).Some?
    ensures out.result.status == Ok ==>
              var samples := Samples(attempt, maxTries);
              && |samples| > 0
              && out.result.temp == Some(Mean(TempValues(samples)))
              && out.result.hum == Some(Mean(HumValues(samples)))
              && out.memory == DhtMemory(out.result.temp, out.result.hum)
    ensures out.result.status == Fallback <==>
              (forall j :: 0 <= j < maxTries ==> Attempt(attempt(j)).None?) && memory.temp.Some?
    ensures out.result.status == Fallback ==> out.result == DhtResult(memory.temp, memory.hum, Fallback)
    ensures out.result.status == Error ==> out.result == DhtResult(None, None, Error)
    ensures out.result.status != Ok ==> out.memory == memory
  {
    var samples := Samples(attempt, maxTries);
    CollectEmptyIff(Attempt, attempt, maxTries);
    if |samples| > 0 then
      var temp, hum := Mean(TempValues(samples)), Mean(HumValues(samples));
      DhtOutcome(DhtResult(Some(temp), Some(hum), Ok), DhtMemory(Some(temp), Some(hum)))
    else if memory.temp.Some? then
      DhtOutcome(DhtResult(memory.temp, memory.hum, Fallback), memory)
    else
      DhtOutcome(DhtResult(None, None, Error), memory)
  }

  /**
   The loop of `read_dht22`: one append to each of the two lists per valid
   attempt, no early exit; the lists stay equally long, exactly `maxTries`
   attempts are made, and the result agrees with `ReadDht22`.
   */
  method ReadDht22Loop(attempt: nat -> DhtRead, maxTries: nat, memory: DhtMemory)
    returns (out: DhtOutcome, attempts: nat)
    ensures attempts == maxTries
    ensures out == ReadDht22(attempt, maxTries, memory)
  {
    var temps: seq<real> := [];
    var hums: seq<real> := [];
    attempts := 0;
    while attempts < maxTries
      invariant attempts <= maxTries
      invariant |temps| == |hums|
      invariant temps == TempValues(Samples(attempt, attempts))
      invariant hums == HumValues(Samples(attempt, attempts))
    {
      var prev := Samples(attempt, attempts);
      match attempt(attempts) {
        case Values(Some(t), Some(h)) =>
          assert Samples(attempt, attempts + 1) == prev + [DhtSample(t, h)];
          assert TempValues(prev + [DhtSample(t, h)]) == TempValues(prev) + [t];
          assert HumValues(prev + [DhtSample(t, h)]) == HumValues(prev) + [h];
          temps := temps + [t];
          hums := hums + [h];
        case _ =>
          assert Samples(attempt, attempts + 1) == prev;
      }
      attempts := attempts + 1;
    }
    if |temps| > 0 {
      var temp, hum := Mean(temps), Mean(hums);
      out := DhtOutcome(DhtResult(Some(temp), Some(hum), Ok), DhtMemory(Some(temp), Some(hum)));
    } else if memory.temp.Some? {
      out := DhtOutcome(DhtResult(memory.temp, memory.hum, Fallback), memory);
    } else {
      out := DhtOutcome(DhtResult(None, None, Error), memory);
    }
  }

  /* ----- the function as written ----- */

  /**
   What `read_dht22` returns as a Python tuple: three values on `ok` and
   `fallback`, but four (`None, None, None, "error"`) on `error`.
   */
  datatype DhtReturn =
    | Triple(temp: Option<real>, hum: Option<real>, status: Status)
    | Quad(first: Option<real>, second: Option<real>, third: Option<real>, status: Status)

  datatype DhtWrittenOutcome = DhtWrittenOutcome(returned: DhtReturn, memory: DhtMemory)

  /** `read_dht22` as written: the same policy, with the four-value `error` return. */
  function ReadDht22AsWritten(attempt: nat -> DhtRead, maxTries: nat, memory: DhtMemory): (out: DhtWrittenOutcome)
    ensures out.returned.Quad? <==>
              (forall j :: 0 <= j < maxTries ==> Attempt(attempt(j)).None?) && memory.temp.None?
    ensures out.returned.Quad? ==> out.returned == Quad(None, None, None, Error) && out.memory == memory
  {
    var samples := Samples(attempt, maxTries);
    CollectEmptyIff(Attempt, attempt, maxTries);
    if |samples| > 0 then
      var temp, hum := Mean(TempValues(samples)), Mean(HumValues(samples));
      DhtWrittenOutcome(Triple(Some(temp), Some(hum), Ok), DhtMemory(Some(temp), Some(hum)))
    else if memory.temp.Some? then
      DhtWrittenOutcome(Triple(memory.temp, memory.hum, Fallback), memory)
    else
      DhtWrittenOutcome(Quad(None, None, None, Error), memory)
  }

  /**
   The as-written function differs from `ReadDht22` only in the arity of its
   `error` result: four values exactly when no attempt was valid and nothing
   was stored, the same three values and state otherwise.
   */
  lemma AsWrittenArity(attempt: nat -> DhtRead, maxTries: nat, memory: DhtMemory)
    ensures var w, c := ReadDht22AsWritten(attempt, maxTries, memory), ReadDht22(attempt, maxTries, memory);
            && w.memory == c.memory
            && (w.returned.Quad? <==>
                  (forall j :: 0 <= j < maxTries ==> Attempt(attempt(j)).None?) && memory.temp.None?)
            && (w.returned.Quad? ==> w.returned == Quad(None, None, None, Error))
            && (w.returned.Triple? ==> w.returned == Triple(c.result.temp, c.result.hum, c.result.status))
  {
    CollectEmptyIff(Attempt, attempt, maxTries);
  }

  /* ----- properties across calls ----- */

  /** On `ok`, each reported value lies between the smallest and largest valid reading of its quantity. */
  lemma OkMeansWithinReadings(attempt: nat -> DhtRead, maxTries: nat, memory: DhtMemory)
    requires ReadDht22(attempt, maxTries, memory).result.status == Ok
    ensures var samples, r := Samples(attempt, maxTries), ReadDht22(attempt, maxTries, memory).result;
            && Min(TempValues(samples)) <= r.temp.value <= Max(TempValues(samples))
            && Min(HumValues(samples)) <= r.hum.value <= Max(HumValues(samples))
  {
    var samples := Samples(attempt, maxTries);
    MeanWithinMinMax(TempValues(samples));
    MeanWithinMinMax(HumValues(samples));
  }

  /**
   The two stored values stay both-present or both-absent, and under that
   invariant a result carries values exactly when its status is not `error`.
   */
  lemma CoherencePreserved(attempt: nat -> DhtRead, maxTries: nat, memory: DhtMemory)
    requires Coherent(memory)
    ensures var out := ReadDht22(attempt, maxTries, memory);
            && Coherent(out.memory)
            && (out.result.status != Error <==> out.result.temp.Some?)
            && (out.result.status != Error <==> out.result.hum.Some?)
  {
  }

  /** Once stored, a value is never cleared, so `error` cannot follow an `ok`. */
  lemma MemoryNeverCleared(attempt: nat -> DhtRead, maxTries: nat, memory: DhtMemory)
    requires memory.temp.Some?
    ensures ReadDht22(attempt, maxTries, memory).memory.temp.Some?
    ensures ReadDht22(attempt, maxTries, memory).result.status != Error
  {
  }
}
