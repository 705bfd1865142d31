/**
 The particulate-matter sensor (HM3301 on the register bus): decoding of one
 register block, and the per-tick retry / average / fallback policy of
 `read_hm3301` over the three last-known-good PM values.
 */
module Hm3301 {
  import opened Common

  /** A value of the byte list the bus driver returns. */
  type Byte = x: int | 0 <= x < 256

  /** Attempts per call (the default of `max_tries`). */
  const DefaultTries: nat := 3

  /** Bytes requested from register 0x00 in one block read. */
  const BlockLength: nat := 29

  /** Offsets of the high bytes of PM1, PM2.5 and PM10 in the block. */
  const Pm1Offset: nat := 4
  const Pm25Offset: nat := 6
  const Pm10Offset: nat := 8

  /** Outcome of one block read: the bytes, or a raised bus fault. */
  datatype BlockRead = Block(data: seq<Byte>) | BusFault

  /** One decoded sample: three unsigned 16-bit concentrations. */
  datatype PmSample = PmSample(pm1: nat, pm25: nat, pm10: nat)

  predicate FitsWords(s: PmSample)
  {
    s.pm1 < 0x1_0000 && s.pm25 < 0x1_0000 && s.pm10 < 0x1_0000
  }

  /** The big-endian 16-bit word `(hi << 8) | lo`; it splits back into its two bytes. */
  function Word(hi: Byte, lo: Byte): (w: nat)
    ensures w < 0x1_0000
    ensures w / 256 == hi && w % 256 == lo
  {
    hi * 256 + lo
  }

  /**
   Decodes one block. A block too short to hold byte 9 raises an index error,
   which the attempt's handler catches like a bus fault: no sample.
   */
  function Decode(data: seq<Byte>): (s: Option<PmSample>)
    ensures s.Some? <==> |data| >= 10
    ensures s.Some? ==> FitsWords(s.value)
    ensures s.Some? ==>
              && s.value.pm1 / 256 == data[Pm1Offset] && s.value.pm1 % 256 == data[Pm1Offset + 1]
              && s.value.pm25 / 256 == data[Pm25Offset] && s.value.pm25 % 256 == data[Pm25Offset + 1]
              && s.value.pm10 / 256 == data[Pm10Offset] && s.value.pm10 % 256 == data[Pm10Offset + 1]
  {
    if |data| < 10 then None
    else
      Some(PmSample(Word(data[Pm1Offset], data[Pm1Offset + 1]),
                    Word(data[Pm25Offset], data[Pm25Offset + 1]),
                    Word(data[Pm10Offset], data[Pm10Offset + 1])))
  }

  /** A block of `BlockLength` bytes carrying the given sample, zero elsewhere. */
  function Encode(s: PmSample): (data: seq<Byte>)
    requires FitsWords(s)
    ensures |data| == BlockLength
  {
    [0, 0, 0, 0, s.pm1 / 256, s.pm1 % 256, s.pm25 / 256, s.pm25 % 256, s.pm10 / 256, s.pm10 % 256]
    + seq(BlockLength - 10, _ => 0)
  }

  /** Every sample that fits in three 16-bit words survives encode-then-decode. */
  lemma DecodeEncode(s: PmSample)
    requires FitsWords(s)
    ensures Decode(Encode(s)) == Some(s)
  {
    var d := Encode(s);
    assert Word(d[4], d[5]) == s.pm1;
    assert Word(d[6], d[7]) == s.pm25;
    assert Word(d[8], d[9]) == s.pm10;
  }

  /** Decoding reads exactly bytes 4 to 9: re-encoding a decoded sample gives them back. */
  lemma EncodeDecode(data: seq<Byte>)
    requires |data| >= 10
    ensures Encode(Decode(data).value)[4..10] == data[4..10]
  {
  }

  /** One attempt: a bus fault or a short block yields no sample. */
  function Attempt(r: BlockRead): Option<PmSample>
  {
    match r
    case BusFault => None
    case Block(data) => Decode(data)
  }

  /* ----- last-known-good state and the per-tick policy ----- */

  /** The three process-wide last-known-good values `last_pm1`, `last_pm25`, `last_pm10`. */
  datatype HmMemory = HmMemory(pm1: Option<real>, pm25: Option<real>, pm10: Option<real>)

  const Empty: HmMemory := HmMemory(None, None, None)

  /** The three values are stored together: all present or all absent. */
  predicate Coherent(m: HmMemory)
  {
    || (m.pm1.Some? && m.pm25.Some? && m.pm10.Some?)
    || (m.pm1.None? && m.pm25.None? && m.pm10.None?)
  }

  /** The 4-tuple `(pm1, pm25, pm10, status)` returned by `read_hm3301`. */
  datatype HmResult = HmResult(pm1: Option<real>, pm25: Option<real>, pm10: Option<real>, status: Status)

  datatype HmOutcome = HmOutcome(result: HmResult, memory: HmMemory)

  function Pm1Values(samples: seq<PmSample>): seq<real>
  {
    seq(|samples|, i requires 0 <= i < |samples| => samples[i].pm1 as real)
  }

  function Pm25Values(samples: seq<PmSample>): seq<real>
  {
    seq(|samples|, i requires 0 <= i < |samples| => samples[i].pm25 as real)
  }

  function Pm10Values(samples: seq<PmSample>): seq<real>
  {
    seq(|samples|, i requires 0 <= i < |samples| => samples[i].pm10 as real)
  }

  /** The valid samples of one call's `maxTries` attempts. */
  function Samples(attempt: nat -> BlockRead, maxTries: nat): seq<PmSample>
  {
    Collect(Attempt, attempt, maxTries)
  }

  /**
   One call of `read_hm3301`: all `maxTries` attempts, then `ok` with the three
   means (stored as the new last-known-good values) if any attempt was valid,
   else `fallback` with the stored values if `last_pm1` is set, else `error`.
   */
  function ReadHm3301(attempt: nat -> BlockRead, maxTries: nat, memory: HmMemory): (out: HmOutcome)
    ensures out.result.status == Ok <==> exists j :: 0 <= j < maxTries && Attempt(attempt(j)).Some?
    ensures out.result.status == Ok ==>
              var samples := Samples(attempt, maxTries);
              && |samples| > 0
              && out.result.pm1 == Some(Mean(Pm1Values(samples)))
              && out.result.pm25 == Some(Mean(Pm25Values(samples)))
              && out.result.pm10 == Some(Mean(Pm10Values(samples)))
              && out.memory == HmMemory(out.result.pm1, out.result.pm25, out.result.pm10)
    ensures out.result.status == Fallback <==>
              (forall j :: 0 <= j < maxTries ==> Attempt(attempt(j)).None?) && memory.pm1.Some?
    ensures out.result.status == Fallback ==>
              out.result == HmResult(memory.pm1, memory.pm25, memory.pm10, Fallback)
    ensures out.result.status == Error ==> out.result == HmResult(None, None, None, Error)
    ensures out.result.status != Ok ==> out.memory == memory
  {
    var samples := Samples(attempt, maxTries);
    CollectEmptyIff(Attempt, attempt, maxTries);
    if |samples| > 0 then
      var pm1, pm25, pm10 := Mean(Pm1Values(samples)), Mean(Pm25Values(samples)), Mean(Pm10Values(samples));
      HmOutcome(HmResult(Some(pm1), Some(pm25), Some(pm10), Ok), HmMemory(Some(pm1), Some(pm25), Some(pm10)))
    else if memory.pm1.Some? then
      HmOutcome(HmResult(memory.pm1, memory.pm25, memory.pm10, Fallback), memory)
    else
      HmOutcome(HmResult(None, None, None, Error), memory)
  }

  /**
   The loop of `read_hm3301` as written: three lists, one append to each per
   valid attempt, no early exit; it makes exactly `maxTries` attempts and agrees
   with `ReadHm3301`.
   */
  method ReadHm3301Loop(attempt: nat -> BlockRead, maxTries: nat, memory: HmMemory)
    returns (out: HmOutcome, attempts: nat)
    ensures attempts == maxTries
    ensures out == ReadHm3301(attempt, maxTries, memory)
  {
    var valsPm1: seq<real> := [];
    var valsPm25: seq<real> := [];
    var valsPm10: seq<real> := [];
    attempts := 0;
    while attempts < maxTries
      invariant attempts <= maxTries
      invariant valsPm1 == Pm1Values(Samples(attempt, attempts))
      invariant valsPm25 == Pm25Values(Samples(attempt, attempts))
      invariant valsPm10 == Pm10Values(Samples(attempt, attempts))
    {
      var prev := Samples(attempt, attempts);
      match Attempt(attempt(attempts)) {
        case Some(s) =>
          assert Samples(attempt, attempts + 1) == prev + [s];
          assert Pm1Values(prev + [s]) == Pm1Values(prev) + [s.pm1 as real];
          assert Pm25Values(prev + [s]) == Pm25Values(prev) + [s.pm25 as real];
          assert Pm10Values(prev + [s]) == Pm10Values(prev) + [s.pm10 as real];
          valsPm1 := valsPm1 + [s.pm1 as real];
          valsPm25 := valsPm25 + [s.pm25 as real];
          valsPm10 := valsPm10 + [s.pm10 as real];
        case None =>
          assert Samples(attempt, attempts + 1) == prev;
      }
      attempts := attempts + 1;
    }
    if |valsPm1| > 0 {
      var pm1, pm25, pm10 := Mean(valsPm1), Mean(valsPm25), Mean(valsPm10);
      out := HmOutcome(HmResult(Some(pm1), Some(pm25), Some(pm10), Ok), HmMemory(Some(pm1), Some(pm25), Some(pm10)));
    } else if memory.pm1.Some? {
      out := HmOutcome(HmResult(memory.pm1, memory.pm25, memory.pm10, Fallback), memory);
    } else {
      out := HmOutcome(HmResult(None, None, None, Error), memory);
    }
  }

  /* ----- properties across calls ----- */

  /** On `ok`, each reported value lies between the smallest and largest valid reading of its quantity. */
  lemma OkMeansWithinReadings(attempt: nat -> BlockRead, maxTries: nat, memory: HmMemory)
    requires ReadHm3301(attempt, maxTries, memory).result.status == Ok
    ensures var samples, r := Samples(attempt, maxTries), ReadHm3301(attempt, maxTries, memory).result;
            && Min(Pm1Values(samples)) <= r.pm1.value <= Max(Pm1Values(samples))
            && Min(Pm25Values(samples)) <= r.pm25.value <= Max(Pm25Values(samples))
            && Min(Pm10Values(samples)) <= r.pm10.value <= Max(Pm10Values(samples))
  {
    var samples := Samples(attempt, maxTries);
    MeanWithinMinMax(Pm1Values(samples));
    MeanWithinMinMax(Pm25Values(samples));
    MeanWithinMinMax(Pm10Values(samples));
  }

  /** On `ok`, each reported value is a 16-bit reading's range: between 0 and 65535. */
  lemma OkMeansInWordRange(attempt: nat -> BlockRead, maxTries: nat, memory: HmMemory)
    requires ReadHm3301(attempt, maxTries, memory).result.status == Ok
    ensures var r := ReadHm3301(attempt, maxTries, memory).result;
            && 0.0 <= r.pm1.value <= 65535.0
            && 0.0 <= r.pm25.value <= 65535.0
            && 0.0 <= r.pm10.value <= 65535.0
  {
    var samples := Samples(attempt, maxTries);
    forall s | s in samples
      ensures FitsWords(s)
    {
      CollectSound(Attempt, attempt, maxTries, s);
    }
    assert forall i :: 0 <= i < |samples| ==> FitsWords(samples[i]);
    MeanBounds(Pm1Values(samples), 0.0, 65535.0);
    MeanBounds(Pm25Values(samples), 0.0, 65535.0);
    MeanBounds(Pm10Values(samples), 0.0, 65535.0);
  }

  /**
   The three stored values stay all-present or all-absent, and under that
   invariant a result carries values exactly when its status is not `error`.
   */
  lemma CoherencePreserved(attempt: nat -> BlockRead, maxTries: nat, memory: HmMemory)
    requires Coherent(memory)
    ensures var out := ReadHm3301(attempt, maxTries, memory);
            && Coherent(out.memory)
            && (out.result.status != Error <==> out.result.pm1.Some?)
            && (out.result.status != Error <==> out.result.pm25.Some?)
            && (out.result.status != Error <==> out.result.pm10.Some?)
  {
  }

  /** Once stored, a value is never cleared, so `error` cannot follow an `ok`. */
  lemma MemoryNeverCleared(attempt: nat -> BlockRead, maxTries: nat, memory: HmMemory)
    requires memory.pm1.Some?
    ensures ReadHm3301(attempt, maxTries, memory).memory.pm1.Some?
    ensures ReadHm3301(attempt, maxTries, memory).result.status != Error
  {
  }
}
