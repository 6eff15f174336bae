/**
 * Duration-weighted uptime.
 *
 * The definition is pointwise: a millisecond is covered when the latest sample at or before it
 * has not outlived its horizon, and up when that sample was ok. The sweep over sorted samples and
 * the window query over rows are both proved to count exactly those milliseconds.
 */
module Uptime {
  import opened Prelude

  /** A measured observation; indeterminate ones are filtered out before they get here. */
  datatype Sample = Sample(at: Time, ok: bool)

  /** `uptimeHundredths` is the percentage to two decimals, as a whole number of hundredths. */
  datatype UptimeResult = UptimeResult(coveredMs: nat, upMs: nat, uncoveredMs: nat, uptimeHundredths: Option<nat>)

  // ----- how long one observation stands -----

  const STANDING_HORIZON_SECONDS := 315_360_000

  function CoverageHorizonMs(intervalSeconds: int, standing: bool): int {
    if standing then STANDING_HORIZON_SECONDS * 1000 else Max(60_000, intervalSeconds * 3_000)
  }

  /** The same horizon as the query writes it, in seconds. */
  function HorizonSeconds(intervalSeconds: int, standing: bool): int {
    if standing then STANDING_HORIZON_SECONDS else Max(60, intervalSeconds * 3)
  }

  // ----- the definition, point by point -----

  /** The latest sample at or before `t`; of samples at the same instant, the last one given. */
  function LatestAt(samples: seq<Sample>, t: Time): Option<Sample> {
    if samples == [] then None
    else Later(LatestAt(samples[..|samples| - 1], t), samples[|samples| - 1], t)
  }

  function Later(best: Option<Sample>, s: Sample, t: Time): Option<Sample> {
    if s.at <= t && (best.None? || best.value.at <= s.at) then Some(s) else best
  }

  /** Whether the instant `t` counts: covered, and with `upOnly` also up. */
  predicate Counts(samples: seq<Sample>, horizonMs: int, t: Time, upOnly: bool) {
    var latest := LatestAt(samples, t);
    latest.Some? && t < latest.value.at + horizonMs && (upOnly ==> latest.value.ok)
  }

  /** How many instants of `[lo, hi)` count. */
  function Count(samples: seq<Sample>, horizonMs: int, lo: Time, hi: Time, upOnly: bool): (n: nat)
    ensures lo <= hi ==> n <= hi - lo
    decreases if hi <= lo then 0 else hi - lo
  {
    if hi <= lo then 0
    else Count(samples, horizonMs, lo, hi - 1, upOnly) + (if Counts(samples, horizonMs, hi - 1, upOnly) then 1 else 0)
  }

  // ----- the samples the sweep looks at -----

  /** Samples whose evidence can reach into the window. */
  function Relevant(samples: seq<Sample>, start: Time, end: Time, horizonMs: int): (r: seq<Sample>)
    ensures forall s :: s in r <==> s in samples && s.at + horizonMs > start && s.at < end
  {
    if samples == [] then []
    else
      var n := |samples| - 1;
      var s := samples[n];
      Relevant(samples[..n], start, end, horizonMs)
      + (if s.at + horizonMs > start && s.at < end then [s] else [])
  }

  function InsertByTime(sorted: seq<Sample>, s: Sample): (r: seq<Sample>)
    ensures forall x :: x in r <==> x in sorted || x == s
    ensures |r| == |sorted| + 1
  {
    var n := |sorted| - 1;
    if sorted == [] || sorted[n].at <= s.at then sorted + [s]
    else InsertByTime(sorted[..n], s) + [sorted[n]]
  }

  /** A stable sort by time. */
  function SortByTime(samples: seq<Sample>): (r: seq<Sample>)
    ensures forall x :: x in r <==> x in samples
    ensures |r| == |samples|
  {
    if samples == [] then []
    else InsertByTime(SortByTime(samples[..|samples| - 1]), samples[|samples| - 1])
  }

  ghost predicate Sorted(samples: seq<Sample>) {
    forall i, j :: 0 <= i < j < |samples| ==> samples[i].at <= samples[j].at
  }

  lemma {:induction false} InsertSorts(sorted: seq<Sample>, s: Sample)
    requires Sorted(sorted)
    ensures Sorted(InsertByTime(sorted, s))
    decreases |sorted|
  {
    var n := |sorted| - 1;
    if sorted != [] && sorted[n].at > s.at {
      InsertSorts(sorted[..n], s);
      var r := InsertByTime(sorted[..n], s);
      forall i | 0 <= i < |r| ensures r[i].at <= sorted[n].at {
        assert r[i] in r;
      }
    }
  }

  lemma {:induction false} SortSorts(samples: seq<Sample>)
    ensures Sorted(SortByTime(samples))
    decreases |samples|
  {
    if samples != [] {
      SortSorts(samples[..|samples| - 1]);
      InsertSorts(SortByTime(samples[..|samples| - 1]), samples[|samples| - 1]);
    }
  }

  // ----- dropping and sorting do not change the latest sample that matters -----

  lemma {:induction false} LatestIsLatest(samples: seq<Sample>, t: Time)
    ensures var latest := LatestAt(samples, t);
            && (latest.Some? ==> latest.value in samples && latest.value.at <= t)
            && forall s :: s in samples && s.at <= t ==> latest.Some? && s.at <= latest.value.at
    decreases |samples|
  {
    if samples != [] { LatestIsLatest(samples[..|samples| - 1], t); }
  }

  lemma {:induction false} InsertLatest(sorted: seq<Sample>, s: Sample, t: Time)
    requires Sorted(sorted)
    ensures LatestAt(InsertByTime(sorted, s), t) == Later(LatestAt(sorted, t), s, t)
    decreases |sorted|
  {
    var n := |sorted| - 1;
    var r := InsertByTime(sorted, s);
    if sorted == [] || sorted[n].at <= s.at {
      assert r[..|r| - 1] == sorted;
    } else {
      assert r[..|r| - 1] == InsertByTime(sorted[..n], s);
      InsertLatest(sorted[..n], s, t);
      LatestIsLatest(sorted[..n], t);
    }
  }

  lemma {:induction false} SortLatest(samples: seq<Sample>, t: Time)
    ensures LatestAt(SortByTime(samples), t) == LatestAt(samples, t)
    decreases |samples|
  {
    if samples != [] {
      var n := |samples| - 1;
      SortLatest(samples[..n], t);
      SortSorts(samples[..n]);
      InsertLatest(SortByTime(samples[..n]), samples[n], t);
    }
  }

  /** A sample that is dropped, or hidden behind a dropped one, had expired before the window. */
  lemma {:induction false} RelevantLatest(samples: seq<Sample>, start: Time, end: Time, horizonMs: int, t: Time)
    requires start <= t < end
    ensures var latest := LatestAt(samples, t);
            LatestAt(Relevant(samples, start, end, horizonMs), t) ==
            if latest.Some? && latest.value.at + horizonMs > start then latest else None
    decreases |samples|
  {
    if samples != [] {
      var n := |samples| - 1;
      var rest := Relevant(samples[..n], start, end, horizonMs);
      var r := Relevant(samples, start, end, horizonMs);
      RelevantLatest(samples[..n], start, end, horizonMs, t);
      if |r| > |rest| { assert r[..|r| - 1] == rest; } else { assert r == rest; }
    }
  }

  lemma SweptSamplesCount(samples: seq<Sample>, start: Time, end: Time, horizonMs: int, t: Time, upOnly: bool)
    requires start <= t < end
    ensures Counts(SortByTime(Relevant(samples, start, end, horizonMs)), horizonMs, t, upOnly) <==>
            Counts(samples, horizonMs, t, upOnly)
  {
    RelevantLatest(samples, start, end, horizonMs, t);
    SortLatest(Relevant(samples, start, end, horizonMs), t);
  }

  lemma {:induction false} SameCount(a: seq<Sample>, b: seq<Sample>, horizonMs: int, lo: Time, hi: Time, upOnly: bool)
    requires forall t :: lo <= t < hi ==> (Counts(a, horizonMs, t, upOnly) <==> Counts(b, horizonMs, t, upOnly))
    ensures Count(a, horizonMs, lo, hi, upOnly) == Count(b, horizonMs, lo, hi, upOnly)
    decreases if hi <= lo then 0 else hi - lo
  {
    if lo < hi { SameCount(a, b, horizonMs, lo, hi - 1, upOnly); }
  }

  // ----- the sweep -----

  /** Milliseconds the `i`-th sorted sample stands for inside the window. */
  function DurationMs(ordered: seq<Sample>, start: Time, end: Time, horizonMs: int, i: nat): int
    requires i < |ordered|
  {
    var next := if i + 1 < |ordered| then ordered[i + 1].at else end;
    Min(next, Min(end, ordered[i].at + horizonMs)) - Max(ordered[i].at, start)
  }

  /** What the first `n` samples contribute. */
  function SweepSum(ordered: seq<Sample>, start: Time, end: Time, horizonMs: int, n: nat, upOnly: bool): nat
    requires n <= |ordered|
  {
    if n == 0 then 0
    else
      var durationMs := DurationMs(ordered, start, end, horizonMs, n - 1);
      SweepSum(ordered, start, end, horizonMs, n - 1, upOnly)
      + (if durationMs > 0 && (upOnly ==> ordered[n - 1].ok) then durationMs else 0)
  }

  /** Where the sweep has got to once `n` samples are done. */
  function Frontier(ordered: seq<Sample>, start: Time, end: Time, n: nat): Time
    requires n <= |ordered|
  {
    if n < |ordered| then Max(ordered[n].at, start) else end
  }

  lemma {:induction false} CountSplits(samples: seq<Sample>, horizonMs: int, lo: Time, mid: Time, hi: Time, upOnly: bool)
    requires lo <= mid <= hi
    ensures Count(samples, horizonMs, lo, hi, upOnly) ==
            Count(samples, horizonMs, lo, mid, upOnly) + Count(samples, horizonMs, mid, hi, upOnly)
    decreases hi - mid
  {
    if mid < hi { CountSplits(samples, horizonMs, lo, mid, hi - 1, upOnly); }
  }

  /** Inside one segment the instants that count are an initial stretch. */
  lemma {:induction false} CountSegment(samples: seq<Sample>, horizonMs: int, lo: Time, hi: Time, upOnly: bool,
                                        s: Sample)
    requires forall t :: lo <= t < hi ==> LatestAt(samples, t) == Some(s)
    ensures Count(samples, horizonMs, lo, hi, upOnly) ==
            if upOnly && !s.ok then 0 else Max(0, Min(hi, s.at + horizonMs) - lo)
    decreases if hi <= lo then 0 else hi - lo
  {
    if lo < hi { CountSegment(samples, horizonMs, lo, hi - 1, upOnly, s); }
  }

  lemma {:induction false} LatestOfSorted(ordered: seq<Sample>, i: nat, t: Time)
    requires Sorted(ordered) && i <= |ordered|
    requires (i > 0 ==> ordered[i - 1].at <= t) && (i < |ordered| ==> t < ordered[i].at)
    ensures LatestAt(ordered, t) == if i == 0 then None else Some(ordered[i - 1])
    decreases |ordered|
  {
    if ordered != [] {
      var n := |ordered| - 1;
      if i == |ordered| {
        LatestIsLatest(ordered[..n], t);
      } else {
        LatestOfSorted(ordered[..n], i, t);
      }
    }
  }

  lemma {:induction false} SweepIsCount(ordered: seq<Sample>, start: Time, end: Time, horizonMs: int, n: nat, upOnly: bool)
    requires Sorted(ordered) && start < end && n <= |ordered|
    requires forall i :: 0 <= i < |ordered| ==> ordered[i].at < end
    ensures SweepSum(ordered, start, end, horizonMs, n, upOnly) ==
            Count(ordered, horizonMs, start, Frontier(ordered, start, end, n), upOnly)
    decreases n
  {
    if n == 0 {
      var hi := Frontier(ordered, start, end, 0);
      forall t | start <= t < hi ensures LatestAt(ordered, t) == None {
        LatestOfSorted(ordered, 0, t);
      }
      NothingCounts(ordered, horizonMs, start, hi, upOnly);
    } else {
      var s := ordered[n - 1];
      var lo, hi := Frontier(ordered, start, end, n - 1), Frontier(ordered, start, end, n);
      SweepIsCount(ordered, start, end, horizonMs, n - 1, upOnly);
      forall t | lo <= t < hi ensures LatestAt(ordered, t) == Some(s) {
        LatestOfSorted(ordered, n, t);
      }
      CountSegment(ordered, horizonMs, lo, hi, upOnly, s);
      CountSplits(ordered, horizonMs, start, lo, hi, upOnly);
    }
  }

  lemma {:induction false} NothingCounts(samples: seq<Sample>, horizonMs: int, lo: Time, hi: Time, upOnly: bool)
    requires forall t :: lo <= t < hi ==> LatestAt(samples, t) == None
    ensures Count(samples, horizonMs, lo, hi, upOnly) == 0
    decreases if hi <= lo then 0 else hi - lo
  {
    if lo < hi { NothingCounts(samples, horizonMs, lo, hi - 1, upOnly); }
  }

  /** The whole sweep counts exactly the instants of the definition. */
  lemma SweepIsExact(samples: seq<Sample>, start: Time, end: Time, horizonMs: int, upOnly: bool)
    requires start < end
    ensures var ordered := SortByTime(Relevant(samples, start, end, horizonMs));
            SweepSum(ordered, start, end, horizonMs, |ordered|, upOnly) == Count(samples, horizonMs, start, end, upOnly)
  {
    var ordered := SortByTime(Relevant(samples, start, end, horizonMs));
    SortSorts(Relevant(samples, start, end, horizonMs));
    forall i | 0 <= i < |ordered| ensures ordered[i].at < end {
      assert ordered[i] in ordered;
    }
    SweepIsCount(ordered, start, end, horizonMs, |ordered|, upOnly);
    forall t | start <= t < end
      ensures Counts(ordered, horizonMs, t, upOnly) <==> Counts(samples, horizonMs, t, upOnly)
    {
      SweptSamplesCount(samples, start, end, horizonMs, t, upOnly);
    }
    SameCount(ordered, samples, horizonMs, start, end, upOnly);
  }

  /** `round2` of a percentage, in hundredths. */
  function Hundredths(upMs: nat, coveredMs: nat): nat
    requires coveredMs > 0
  {
    (2 * upMs * 10_000 + coveredMs) / (2 * coveredMs)
  }

  method UptimeFromSamples(samples: seq<Sample>, start: Time, end: Time, horizonMs: int) returns (r: UptimeResult)
    ensures r.coveredMs == Count(samples, horizonMs, start, end, false)
    ensures r.upMs == Count(samples, horizonMs, start, end, true)
    ensures r.coveredMs + r.uncoveredMs == Max(0, end - start)
    ensures r.uptimeHundredths == if r.coveredMs == 0 then None else Some(Hundredths(r.upMs, r.coveredMs))
  {
    var windowMs := Max(0, end - start);
    if windowMs == 0 {
      return UptimeResult(0, 0, 0, None);
    }
    var ordered := SortByTime(Relevant(samples, start, end, horizonMs));
    var coveredMs, upMs := 0, 0;
    for index := 0 to |ordered|
      invariant coveredMs == SweepSum(ordered, start, end, horizonMs, index, false)
      invariant upMs == SweepSum(ordered, start, end, horizonMs, index, true)
    {
      var sample := ordered[index];
      var segmentStart := Max(sample.at, start);
      var next := if index + 1 < |ordered| then ordered[index + 1].at else end;
      var segmentEnd := Min(next, Min(end, sample.at + horizonMs));
      var durationMs := segmentEnd - segmentStart;
      if durationMs <= 0 {
        continue;
      }
      coveredMs := coveredMs + durationMs;
      if sample.ok {
        upMs := upMs + durationMs;
      }
    }
    SweepIsExact(samples, start, end, horizonMs, false);
    SweepIsExact(samples, start, end, horizonMs, true);
    r := UptimeResult(coveredMs, upMs, windowMs - coveredMs,
                      if coveredMs == 0 then None else Some(Hundredths(upMs, coveredMs)));
  }
}
