/** Hybrid logical clocks: wall milliseconds above a 16-bit counter, packed in one integer. */
module Hlc {
  import opened Prelude

  const COUNTERS := 65536
  const MAX_COUNTER := COUNTERS - 1

  datatype Error = RangeError

  datatype Reading = Reading(physicalMs: int, counter: int)

  function EncodeHlc(physicalMs: int, counter: int): Result<int, Error> {
    if physicalMs < 0 || counter < 0 || counter > MAX_COUNTER then Err(RangeError)
    else Ok(physicalMs * COUNTERS + counter)
  }

  /** A right shift and a mask; both round toward minus infinity. */
  function DecodeHlc(hlc: int): Reading {
    Reading(hlc / COUNTERS, hlc % COUNTERS)
  }

  /** The next clock value for an actor that last issued `previous`. */
  function NextHlc(previous: int, nowMs: int): Result<int, Error> {
    var prior := DecodeHlc(previous);
    var physicalMs := Max(prior.physicalMs, nowMs);
    if physicalMs > prior.physicalMs then EncodeHlc(physicalMs, 0)
    else if prior.counter >= MAX_COUNTER then EncodeHlc(physicalMs + 1, 0)
    else EncodeHlc(physicalMs, prior.counter + 1)
  }

  /** Packing is a bijection between the encodable readings and the non-negative integers. */
  lemma PackingIsBijective(physicalMs: int, counter: int, hlc: int)
    ensures EncodeHlc(physicalMs, counter).Ok? ==>
              && EncodeHlc(physicalMs, counter).value >= 0
              && DecodeHlc(EncodeHlc(physicalMs, counter).value) == Reading(physicalMs, counter)
    ensures var r := DecodeHlc(hlc);
            EncodeHlc(r.physicalMs, r.counter) == if hlc >= 0 then Ok(hlc) else Err(RangeError)
  {
  }

  /** One closed form for every input: the successor or the wall reading, whichever is later. */
  lemma NextIsMax(previous: int, nowMs: int)
    ensures var next := Max(previous + 1, nowMs * COUNTERS);
            NextHlc(previous, nowMs) == if next >= 0 then Ok(next) else Err(RangeError)
  {
    var prior := DecodeHlc(previous);
    assert previous == prior.physicalMs * COUNTERS + prior.counter;
  }

  /** The clock after a whole run of stamps, oldest reading first. */
  function AfterStamps(start: nat, readings: seq<int>): nat {
    if readings == [] then start
    else
      var before := AfterStamps(start, readings[..|readings| - 1]);
      NextIsMax(before, readings[|readings| - 1]);
      NextHlc(before, readings[|readings| - 1]).value
  }

  /** However the wall clock jumps, the clock advances by at least one tick a stamp and borrows at most one. */
  lemma {:induction false} DriftIsBounded(start: nat, readings: seq<int>, bound: int)
    requires start <= bound * COUNTERS && forall i :: 0 <= i < |readings| ==> readings[i] <= bound
    ensures start + |readings| <= AfterStamps(start, readings) <= bound * COUNTERS + |readings|
    ensures forall i :: 0 <= i < |readings| ==> readings[i] * COUNTERS <= AfterStamps(start, readings)
  {
    if readings != [] {
      var n := |readings| - 1;
      DriftIsBounded(start, readings[..n], bound);
      NextIsMax(AfterStamps(start, readings[..n]), readings[n]);
      forall i | 0 <= i < n ensures readings[i] * COUNTERS <= AfterStamps(start, readings) {
        assert readings[..n][i] == readings[i];
      }
    }
  }
}
