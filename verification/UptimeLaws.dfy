/** What the pointwise definition gives every uptime surface, and the window query's agreement with it. */
module UptimeLaws {
  import opened Prelude
  import opened Uptime

  // ----- splitting, bounds, order -----

  /** Days add up: a window split anywhere gives the same covered and up time in two parts. */
  lemma WindowsAddUp(samples: seq<Sample>, horizonMs: int, lo: Time, mid: Time, hi: Time, upOnly: bool)
    requires lo <= mid <= hi
    ensures Count(samples, horizonMs, lo, hi, upOnly) ==
            Count(samples, horizonMs, lo, mid, upOnly) + Count(samples, horizonMs, mid, hi, upOnly)
  {
    CountSplits(samples, horizonMs, lo, mid, hi, upOnly);
  }

  /** Up time is covered time, so the percentage lies between 0 and 100. */
  lemma {:induction false} UpIsCovered(samples: seq<Sample>, horizonMs: int, lo: Time, hi: Time)
    ensures Count(samples, horizonMs, lo, hi, true) <= Count(samples, horizonMs, lo, hi, false)
    ensures var covered := Count(samples, horizonMs, lo, hi, false);
            covered > 0 ==> Hundredths(Count(samples, horizonMs, lo, hi, true), covered) <= 10_000
    decreases if hi <= lo then 0 else hi - lo
  {
    if lo < hi { UpIsCovered(samples, horizonMs, lo, hi - 1); }
    var up, covered := Count(samples, horizonMs, lo, hi, true), Count(samples, horizonMs, lo, hi, false);
    if covered > 0 { QuotientBound(up, covered); }
  }

  lemma MulMonotone(a: nat, b: nat, d: nat)
    ensures a >= b ==> a * d >= b * d
  {
    if a > b { MulMonotone(a - 1, b, d); }
  }

  lemma DivisionBound(x: nat, d: nat, k: nat)
    requires d > 0 && x < (k + 1) * d
    ensures x / d <= k
  {
    var q := x / d;
    assert x == q * d + x % d;
    MulMonotone(q, k + 1, d);
  }

  lemma QuotientBound(up: nat, covered: nat)
    requires up <= covered && covered > 0
    ensures Hundredths(up, covered) <= 10_000
  {
    var x, d := 2 * up * 10_000 + covered, 2 * covered;
    assert x < (10_000 + 1) * d;
    DivisionBound(x, d, 10_000);
  }

  ghost predicate DistinctTimes(samples: seq<Sample>) {
    forall a, b :: a in samples && b in samples && a.at == b.at ==> a == b
  }

  ghost predicate SameSamples(a: seq<Sample>, b: seq<Sample>) {
    forall s :: s in a <==> s in b
  }

  lemma LatestIgnoresOrder(a: seq<Sample>, b: seq<Sample>, t: Time)
    requires DistinctTimes(a) && SameSamples(a, b)
    ensures LatestAt(a, t) == LatestAt(b, t)
  {
    LatestIsLatest(a, t);
    LatestIsLatest(b, t);
  }

  /** With distinct timestamps the order the samples arrive in, and repeats among them, change nothing. */
  lemma CountIgnoresOrder(a: seq<Sample>, b: seq<Sample>, horizonMs: int, lo: Time, hi: Time, upOnly: bool)
    requires DistinctTimes(a) && SameSamples(a, b)
    ensures Count(a, horizonMs, lo, hi, upOnly) == Count(b, horizonMs, lo, hi, upOnly)
  {
    forall t | lo <= t < hi ensures Counts(a, horizonMs, t, upOnly) <==> Counts(b, horizonMs, t, upOnly) {
      LatestIgnoresOrder(a, b, t);
    }
    SameCount(a, b, horizonMs, lo, hi, upOnly);
  }

  /** The same samples, each as often, in any order. */
  ghost predicate Reordered(a: seq<Sample>, b: seq<Sample>) {
    multiset(a) == multiset(b)
  }

  ghost predicate SameNumbers(a: seq<Sample>, b: seq<Sample>, horizonMs: int) {
    forall lo, hi, upOnly :: Count(a, horizonMs, lo, hi, upOnly) == Count(b, horizonMs, lo, hi, upOnly)
  }

  /** The sample at `i` moved to the end. */
  function MovedLast(samples: seq<Sample>, i: nat): seq<Sample>
    requires i < |samples|
  {
    samples[..i] + samples[i + 1..] + [samples[i]]
  }

  /** Of the samples at one instant the last one given wins. */
  lemma LastGivenWins(samples: seq<Sample>, i: nat, horizonMs: int)
    requires i < |samples| && horizonMs > 0
    ensures var b, s := MovedLast(samples, i), samples[i];
            && Reordered(samples, b)
            && (Count(b, horizonMs, s.at, s.at + 1, true) == if s.ok then 1 else 0)
  {
    var b, s := MovedLast(samples, i), samples[i];
    assert samples == samples[..i] + [s] + samples[i + 1..];
    var init := b[..|b| - 1];
    assert b == init + [s];
    LatestIsLatest(init, s.at);
    assert LatestAt(b, s.at) == Some(s);
    assert Count(b, horizonMs, s.at, s.at, true) == 0;
  }

  /** The order the samples arrive in is irrelevant to every window exactly when no two of one instant disagree. */
  lemma OrderIrrelevantIffDistinct(samples: seq<Sample>, horizonMs: int)
    requires horizonMs > 0
    ensures (forall b :: Reordered(samples, b) ==> SameNumbers(samples, b, horizonMs)) <==> DistinctTimes(samples)
  {
    if DistinctTimes(samples) {
      forall b | Reordered(samples, b) ensures SameNumbers(samples, b, horizonMs) {
        assert forall s :: s in samples <==> s in multiset(b);
        forall lo, hi, upOnly
          ensures Count(samples, horizonMs, lo, hi, upOnly) == Count(b, horizonMs, lo, hi, upOnly)
        {
          CountIgnoresOrder(samples, b, horizonMs, lo, hi, upOnly);
        }
      }
    } else {
      var i, j :| 0 <= i < |samples| && 0 <= j < |samples| && samples[i].at == samples[j].at && samples[i] != samples[j];
      LastGivenWins(samples, i, horizonMs);
      LastGivenWins(samples, j, horizonMs);
      var at := samples[i].at;
      assert Count(MovedLast(samples, i), horizonMs, at, at + 1, true)
          != Count(MovedLast(samples, j), horizonMs, at, at + 1, true);
      assert !SameNumbers(samples, MovedLast(samples, i), horizonMs)
          || !SameNumbers(samples, MovedLast(samples, j), horizonMs);
    }
  }

  // ----- the window query -----

  /**
   * The least later instant among the scanned rows. That is `lead(checked_at) over (order by
   * checked_at)` when no two rows share an instant, as `QueryIsExact` requires; among rows that do,
   * SQL's lead is the next of them, in an order the query leaves open.
   */
  function Lead(rows: seq<Sample>, at: Time): Option<Time> {
    if rows == [] then None
    else
      var n := |rows| - 1;
      var best := Lead(rows[..n], at);
      if rows[n].at > at && (best.None? || rows[n].at < best.value) then Some(rows[n].at) else best
  }

  lemma {:induction false} LeadIsLeastLater(rows: seq<Sample>, at: Time)
    ensures var lead := Lead(rows, at);
            && (lead.Some? ==> lead.value > at && exists s :: s in rows && s.at == lead.value)
            && forall s :: s in rows && s.at > at ==> lead.Some? && lead.value <= s.at
    decreases |rows|
  {
    if rows != [] {
      var n := |rows| - 1;
      LeadIsLeastLater(rows[..n], at);
      var lead := Lead(rows, at);
      if lead.Some? {
        if lead == Lead(rows[..n], at) {
          var s :| s in rows[..n] && s.at == lead.value;
          assert s in rows;
        } else {
          assert rows[n] in rows;
        }
      }
    }
  }

  /** The duration of a row's segment; a segment that does not end after it starts is dropped. */
  function SegmentMs(rows: seq<Sample>, row: Sample, start: Time, end: Time, horizonMs: int): nat {
    var lead := Lead(rows, row.at);
    var segStart := Max(row.at, start);
    var segEnd := Min(if lead.Some? then lead.value else end, Min(end, row.at + horizonMs));
    if segEnd > segStart then segEnd - segStart else 0
  }

  /** `sum(duration_ms)`, filtered by ok when `upOnly`, over the listed rows of the scan. */
  function SumSegments(rows: seq<Sample>, listed: seq<Sample>, start: Time, end: Time, horizonMs: int, upOnly: bool): nat {
    if listed == [] then 0
    else
      var n := |listed| - 1;
      SumSegments(rows, listed[..n], start, end, horizonMs, upOnly)
      + (if upOnly && !listed[n].ok then 0 else SegmentMs(rows, listed[n], start, end, horizonMs))
  }

  /** The query over one monitor's measured rows: scan bound, lead, clip, drop, sum. */
  function QuerySum(checks: seq<Sample>, start: Time, end: Time, horizonMs: int, upOnly: bool): nat {
    var scanned := Relevant(checks, start, end, horizonMs);
    SumSegments(scanned, scanned, start, end, horizonMs, upOnly)
  }

  lemma LeadIgnoresOrder(a: seq<Sample>, b: seq<Sample>, at: Time)
    requires SameSamples(a, b)
    ensures Lead(a, at) == Lead(b, at)
  {
    LeadIsLeastLater(a, at);
    LeadIsLeastLater(b, at);
  }

  lemma {:induction false} InsertAddsOne(rows: seq<Sample>, listed: seq<Sample>, s: Sample,
                                         start: Time, end: Time, horizonMs: int, upOnly: bool)
    ensures SumSegments(rows, InsertByTime(listed, s), start, end, horizonMs, upOnly) ==
            SumSegments(rows, listed, start, end, horizonMs, upOnly)
            + (if upOnly && !s.ok then 0 else SegmentMs(rows, s, start, end, horizonMs))
    decreases |listed|
  {
    var n := |listed| - 1;
    var r := InsertByTime(listed, s);
    if listed == [] || listed[n].at <= s.at {
      assert r[..|r| - 1] == listed;
    } else {
      assert r[..|r| - 1] == InsertByTime(listed[..n], s);
      InsertAddsOne(rows, listed[..n], s, start, end, horizonMs, upOnly);
    }
  }

  /** The sum does not depend on the order the rows are listed in. */
  lemma {:induction false} SortKeepsSum(rows: seq<Sample>, listed: seq<Sample>,
                                        start: Time, end: Time, horizonMs: int, upOnly: bool)
    ensures SumSegments(rows, SortByTime(listed), start, end, horizonMs, upOnly) ==
            SumSegments(rows, listed, start, end, horizonMs, upOnly)
    decreases |listed|
  {
    if listed != [] {
      var n := |listed| - 1;
      SortKeepsSum(rows, listed[..n], start, end, horizonMs, upOnly);
      InsertAddsOne(rows, SortByTime(listed[..n]), listed[n], start, end, horizonMs, upOnly);
    }
  }

  ghost predicate StrictlySorted(ordered: seq<Sample>) {
    forall i, j :: 0 <= i < j < |ordered| ==> ordered[i].at < ordered[j].at
  }

  lemma LeadIsNext(ordered: seq<Sample>, i: nat)
    requires StrictlySorted(ordered) && i < |ordered|
    ensures Lead(ordered, ordered[i].at) == if i + 1 < |ordered| then Some(ordered[i + 1].at) else None
  {
    LeadIsLeastLater(ordered, ordered[i].at);
    if i + 1 < |ordered| { assert ordered[i + 1] in ordered; }
  }

  /** On sorted rows the query's segments are the sweep's, one for one. */
  lemma {:induction false} SegmentsAreSweep(rows: seq<Sample>, ordered: seq<Sample>, n: nat,
                                            start: Time, end: Time, horizonMs: int, upOnly: bool)
    requires StrictlySorted(ordered) && SameSamples(rows, ordered) && n <= |ordered|
    ensures SumSegments(rows, ordered[..n], start, end, horizonMs, upOnly) ==
            SweepSum(ordered, start, end, horizonMs, n, upOnly)
    decreases n
  {
    if n > 0 {
      assert ordered[..n][..n - 1] == ordered[..n - 1];
      SegmentsAreSweep(rows, ordered, n - 1, start, end, horizonMs, upOnly);
      LeadIgnoresOrder(rows, ordered, ordered[n - 1].at);
      LeadIsNext(ordered, n - 1);
    }
  }

  /** No two rows at one instant, each listed once. */
  ghost predicate OncePerInstant(samples: seq<Sample>) {
    forall i, j :: 0 <= i < j < |samples| ==> samples[i].at != samples[j].at
  }

  lemma {:induction false} RelevantOnce(samples: seq<Sample>, start: Time, end: Time, horizonMs: int)
    requires OncePerInstant(samples)
    ensures OncePerInstant(Relevant(samples, start, end, horizonMs))
    decreases |samples|
  {
    if samples != [] {
      var n := |samples| - 1;
      RelevantOnce(samples[..n], start, end, horizonMs);
      forall s | s in samples[..n] ensures s.at != samples[n].at {
      }
    }
  }

  lemma {:induction false} InsertStrict(sorted: seq<Sample>, s: Sample)
    requires StrictlySorted(sorted) && forall x :: x in sorted ==> x.at != s.at
    ensures StrictlySorted(InsertByTime(sorted, s))
    decreases |sorted|
  {
    var n := |sorted| - 1;
    if sorted != [] && sorted[n].at > s.at {
      InsertStrict(sorted[..n], s);
      var r := InsertByTime(sorted[..n], s);
      forall i | 0 <= i < |r| ensures r[i].at < sorted[n].at {
        assert r[i] in r;
      }
    }
  }

  lemma {:induction false} SortStrict(samples: seq<Sample>)
    requires OncePerInstant(samples)
    ensures StrictlySorted(SortByTime(samples))
    decreases |samples|
  {
    if samples != [] {
      var n := |samples| - 1;
      SortStrict(samples[..n]);
      forall s | s in samples[..n] ensures s.at != samples[n].at {
      }
      InsertStrict(SortByTime(samples[..n]), samples[n]);
    }
  }

  /** With one row per instant the query sums to the sweep's numbers, for every history and every window. */
  lemma QueryIsExact(checks: seq<Sample>, start: Time, end: Time, horizonMs: int, upOnly: bool)
    requires OncePerInstant(checks)
    ensures QuerySum(checks, start, end, horizonMs, upOnly) == Count(checks, horizonMs, start, end, upOnly)
  {
    var scanned := Relevant(checks, start, end, horizonMs);
    if end <= start {
      NoSegments(scanned, scanned, start, end, horizonMs, upOnly);
    } else {
      var ordered := SortByTime(scanned);
      RelevantOnce(checks, start, end, horizonMs);
      SortStrict(scanned);
      SortKeepsSum(scanned, scanned, start, end, horizonMs, upOnly);
      SegmentsAreSweep(scanned, ordered, |ordered|, start, end, horizonMs, upOnly);
      assert ordered[..|ordered|] == ordered;
      SweepIsExact(checks, start, end, horizonMs, upOnly);
    }
  }

  /** An empty or inverted window has no segment. */
  lemma {:induction false} NoSegments(rows: seq<Sample>, listed: seq<Sample>, start: Time, end: Time, horizonMs: int,
                                      upOnly: bool)
    requires end <= start
    ensures SumSegments(rows, listed, start, end, horizonMs, upOnly) == 0
    decreases |listed|
  {
    if listed != [] { NoSegments(rows, listed[..|listed| - 1], start, end, horizonMs, upOnly); }
  }

  lemma HorizonsAgree(intervalSeconds: int, standing: bool)
    ensures 1000 * HorizonSeconds(intervalSeconds, standing) == CoverageHorizonMs(intervalSeconds, standing)
  {
  }

  /** One methodology: the query with its horizon in seconds and the sweep with its own in milliseconds agree. */
  lemma OneMethodology(checks: seq<Sample>, start: Time, end: Time, intervalSeconds: int, standing: bool, upOnly: bool)
    requires OncePerInstant(checks)
    ensures QuerySum(checks, start, end, 1000 * HorizonSeconds(intervalSeconds, standing), upOnly)
         == Count(checks, CoverageHorizonMs(intervalSeconds, standing), start, end, upOnly)
  {
    HorizonsAgree(intervalSeconds, standing);
    QueryIsExact(checks, start, end, 1000 * HorizonSeconds(intervalSeconds, standing), upOnly);
  }
}
