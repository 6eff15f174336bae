/**
 * The status controller: what a monitor's stored status becomes when a verdict lands.
 *
 * The three functions are the controller itself. `AfterHistory` runs it over a whole
 * history of observations, and `StatusIsHistory` states what that history means without
 * any incremental state.
 */
module StatusController {
  import opened Prelude

  datatype Verdict = Up | Degraded | Down | Indeterminate

  datatype MonitorStatus = IsUp | IsDown | IsDegraded | IsUnknown

  /** Status of a judged verdict; a down verdict waits for the failure window. */
  function DeriveStatus(windowSeconds: nat, verdict: Verdict, firstFailureAt: Option<Time>,
                        previous: MonitorStatus, now: Time): MonitorStatus
  {
    match verdict
    case Up => IsUp
    case Degraded => IsDegraded
    case Indeterminate => IsUnknown
    case Down =>
      var failingForMs := if firstFailureAt.None? then 0 else now - firstFailureAt.value;
      if failingForMs >= windowSeconds * 1000 then IsDown else previous
  }

  /** Start of the current failure run after one more verdict. */
  function AdvanceFailureRun(previous: Option<Time>, verdict: Verdict, now: Time): Option<Time> {
    match verdict
    case Down => if previous.None? then Some(now) else previous
    case Indeterminate => previous
    case _ => None
  }

  datatype Reconciliation = Reconciliation(status: MonitorStatus, openIncident: bool, resolveIncidents: bool)

  function Reconcile(windowSeconds: nat, verdict: Verdict, firstFailureAt: Option<Time>,
                     previous: MonitorStatus, now: Time, degradedResolves: bool): Reconciliation
  {
    var status := DeriveStatus(windowSeconds, verdict, firstFailureAt, previous, now);
    Reconciliation(status, status.IsDown?, verdict.Up? || (verdict.Degraded? && degradedResolves))
  }

  // ----- the controller over a whole history -----

  datatype Observation = Observation(verdict: Verdict, at: Time)

  /** The two columns the controller keeps between observations. */
  datatype Row = Row(status: MonitorStatus, firstFailureAt: Option<Time>)

  const CLEAN_SLATE := Row(IsUnknown, None)

  function Observe(windowSeconds: nat, row: Row, o: Observation): Row {
    var firstFailureAt := AdvanceFailureRun(row.firstFailureAt, o.verdict, o.at);
    Row(DeriveStatus(windowSeconds, o.verdict, firstFailureAt, row.status, o.at), firstFailureAt)
  }

  /** The row after every observation of `history`, oldest first. */
  function AfterHistory(windowSeconds: nat, history: seq<Observation>): Row {
    if history == [] then CLEAN_SLATE
    else Observe(windowSeconds, AfterHistory(windowSeconds, history[..|history| - 1]), history[|history| - 1])
  }

  ghost predicate NonDecreasing(history: seq<Observation>) {
    forall i, j :: 0 <= i <= j < |history| ==> history[i].at <= history[j].at
  }

  predicate Recovers(verdict: Verdict) { verdict.Up? || verdict.Degraded? }

  /** `start` is where the unrecovered tail of the history begins: just after its last up or degraded. */
  ghost predicate IsRunStart(history: seq<Observation>, start: nat) {
    && start <= |history|
    && (start > 0 ==> Recovers(history[start - 1].verdict))
    && forall i :: start <= i < |history| ==> !Recovers(history[i].verdict)
  }

  /** `first` is the earliest down at or after `start`. */
  ghost predicate IsFirstDown(history: seq<Observation>, start: nat, first: nat) {
    && start <= first < |history|
    && history[first].verdict.Down?
    && forall i :: start <= i < first ==> !history[i].verdict.Down?
  }

  ghost predicate SawIndeterminate(history: seq<Observation>, start: nat) {
    exists i :: start <= i < |history| && history[i].verdict.Indeterminate?
  }

  /** What was established just before the run: the recovery that precedes it, or nothing. */
  function BeforeRun(history: seq<Observation>, start: nat): MonitorStatus
    requires start <= |history|
  {
    if start == 0 then IsUnknown
    else if history[start - 1].verdict.Up? then IsUp
    else if history[start - 1].verdict.Degraded? then IsDegraded
    else IsUnknown
  }

  /** The run's first down is at least a window older than the last observation. */
  ghost predicate WindowElapsed(windowSeconds: nat, history: seq<Observation>, start: nat) {
    exists first: nat ::
      IsFirstDown(history, start, first) && history[|history| - 1].at - history[first].at >= windowSeconds * 1000
  }

  /** What a failing row reads, said of the history alone. */
  ghost predicate StatusOfRun(windowSeconds: nat, history: seq<Observation>, start: nat, status: MonitorStatus)
    requires IsRunStart(history, start) && history != []
  {
    var last := history[|history| - 1];
    match last.verdict
    case Indeterminate => status == IsUnknown
    case Down =>
      status == if WindowElapsed(windowSeconds, history, start) then IsDown
                else if SawIndeterminate(history, start) then IsUnknown
                else BeforeRun(history, start)
    case _ => status == BeforeRun(history, start)
  }

  /** The run start column is the time of the run's first down, and is null when it has none. */
  ghost predicate FailureRunOf(history: seq<Observation>, start: nat, firstFailureAt: Option<Time>)
    requires IsRunStart(history, start)
  {
    match firstFailureAt
    case None => forall i :: start <= i < |history| ==> !history[i].verdict.Down?
    case Some(t) => exists first: nat :: IsFirstDown(history, start, first) && history[first].at == t
  }

  /** A first down found in a prefix is the first down of the whole tail. */
  lemma FirstDownExtends(history: seq<Observation>, last: Observation, start: nat, first: nat)
    requires start <= |history|
    requires first < |history|
    ensures IsFirstDown(history + [last], start, first) <==> IsFirstDown(history, start, first)
  {
    assert forall i :: 0 <= i < |history| ==> (history + [last])[i] == history[i];
  }

  /** The run of failures the row remembers is the run in the history. */
  lemma {:induction false} FailureRunIsHistory(windowSeconds: nat, history: seq<Observation>, start: nat)
    requires IsRunStart(history, start)
    ensures FailureRunOf(history, start, AfterHistory(windowSeconds, history).firstFailureAt)
  {
    if history != [] && start < |history| {
      var n := |history| - 1;
      var before, last := history[..n], history[n];
      assert history == before + [last];
      FailureRunIsHistory(windowSeconds, before, start);
      var run := AfterHistory(windowSeconds, before).firstFailureAt;
      if run.Some? {
        var first: nat :| IsFirstDown(before, start, first) && before[first].at == run.value;
        FirstDownExtends(before, last, start, first);
      } else if last.verdict.Down? {
        assert IsFirstDown(history, start, n);
      }
    } else if history != [] {
      assert Recovers(history[start - 1].verdict);
    }
  }

  /** The run start column is set exactly while the tail holds a down, and then measures it. */
  lemma ElapsedIsHistory(windowSeconds: nat, history: seq<Observation>, start: nat)
    requires IsRunStart(history, start) && history != [] && history[|history| - 1].verdict.Down?
    ensures var run := AfterHistory(windowSeconds, history).firstFailureAt;
            run.Some? && (WindowElapsed(windowSeconds, history, start) <==>
                          history[|history| - 1].at - run.value >= windowSeconds * 1000)
  {
    FailureRunIsHistory(windowSeconds, history, start);
    var run := AfterHistory(windowSeconds, history).firstFailureAt;
    assert start <= |history| - 1;
    var first: nat :| IsFirstDown(history, start, first) && history[first].at == run.value;
    forall other: nat | IsFirstDown(history, start, other) ensures other == first {
      assert history[other].verdict.Down?;
    }
  }

  /** Once a run's window has elapsed it stays elapsed at every later observation of the run. */
  lemma ElapsedPersists(windowSeconds: nat, history: seq<Observation>, last: Observation, start: nat)
    requires NonDecreasing(history + [last])
    requires WindowElapsed(windowSeconds, history, start)
    ensures WindowElapsed(windowSeconds, history + [last], start)
  {
    var whole := history + [last];
    var first: nat :| IsFirstDown(history, start, first)
                      && history[|history| - 1].at - history[first].at >= windowSeconds * 1000;
    FirstDownExtends(history, last, start, first);
    assert whole[|history| - 1].at <= whole[|history|].at;
    assert IsFirstDown(whole, start, first);
  }

  lemma IndeterminateExtends(history: seq<Observation>, last: Observation, start: nat)
    requires start <= |history|
    ensures SawIndeterminate(history + [last], start) <==>
            (SawIndeterminate(history, start) || last.verdict.Indeterminate?)
  {
    var whole := history + [last];
    if SawIndeterminate(history, start) {
      var i :| start <= i < |history| && history[i].verdict.Indeterminate?;
      assert whole[i].verdict.Indeterminate?;
    }
    if last.verdict.Indeterminate? { assert whole[|history|].verdict.Indeterminate?; }
  }

  /** One more failing observation inside the run. */
  lemma FailingStep(windowSeconds: nat, before: seq<Observation>, last: Observation, start: nat)
    requires NonDecreasing(before + [last]) && last.verdict.Down?
    requires start < |before| && IsRunStart(before, start) && IsRunStart(before + [last], start)
    requires StatusOfRun(windowSeconds, before, start, AfterHistory(windowSeconds, before).status)
    ensures var kept := AfterHistory(windowSeconds, before).status;
            !WindowElapsed(windowSeconds, before + [last], start) ==>
              kept == if SawIndeterminate(before + [last], start) then IsUnknown else BeforeRun(before + [last], start)
  {
    var whole := before + [last];
    var previous := before[|before| - 1];
    IndeterminateExtends(before, last, start);
    assert BeforeRun(whole, start) == BeforeRun(before, start);
    assert !Recovers(previous.verdict);
    if previous.verdict.Indeterminate? {
      assert SawIndeterminate(before, start);
    } else if WindowElapsed(windowSeconds, before, start) {
      ElapsedPersists(windowSeconds, before, last, start);
    }
  }

  /** Level-triggered equals history: what the status column holds is decided by the unrecovered tail alone. */
  lemma {:induction false} StatusIsHistory(windowSeconds: nat, history: seq<Observation>, start: nat)
    requires NonDecreasing(history) && history != [] && IsRunStart(history, start)
    ensures StatusOfRun(windowSeconds, history, start, AfterHistory(windowSeconds, history).status)
  {
    var n := |history| - 1;
    var before, last := history[..n], history[n];
    assert history == before + [last];
    if last.verdict.Down? {
      ElapsedIsHistory(windowSeconds, history, start);
      assert start <= n;
      if start == n {
        PreRunStatus(windowSeconds, before);
      } else {
        assert IsRunStart(before, start);
        StatusIsHistory(windowSeconds, before, start);
        FailingStep(windowSeconds, before, last, start);
      }
    }
  }

  /** A history that ends where a run starts leaves the status its recovery established. */
  lemma PreRunStatus(windowSeconds: nat, history: seq<Observation>)
    requires history != [] ==> Recovers(history[|history| - 1].verdict)
    ensures AfterHistory(windowSeconds, history).status == BeforeRun(history, |history|)
  {
  }

  /** A history has one run start, so the description above is a function of the history. */
  lemma RunStartIsUnique(history: seq<Observation>, a: nat, b: nat)
    requires IsRunStart(history, a) && IsRunStart(history, b)
    ensures a == b
  {
    assert a > 0 ==> Recovers(history[a - 1].verdict);
    assert b > 0 ==> Recovers(history[b - 1].verdict);
  }

  /** Every history has a run start. */
  lemma {:induction false} RunStartExists(history: seq<Observation>) returns (start: nat)
    ensures IsRunStart(history, start)
  {
    start := |history|;
    while start > 0 && !Recovers(history[start - 1].verdict)
      invariant start <= |history|
      invariant forall i :: start <= i < |history| ==> !Recovers(history[i].verdict)
    {
      start := start - 1;
    }
  }

  /** Down exactly when the last verdict is down and the run's first down is a window old. */
  lemma DownIffWindowElapsed(windowSeconds: nat, history: seq<Observation>, start: nat)
    requires NonDecreasing(history) && history != [] && IsRunStart(history, start)
    ensures AfterHistory(windowSeconds, history).status == IsDown <==>
            (history[|history| - 1].verdict.Down? && WindowElapsed(windowSeconds, history, start))
  {
    StatusIsHistory(windowSeconds, history, start);
  }

  /** So every history from a clean slate has exactly one run, and the two columns say what it says. */
  lemma ColumnsDescribeTheRun(windowSeconds: nat, history: seq<Observation>) returns (start: nat)
    requires NonDecreasing(history) && history != []
    ensures IsRunStart(history, start) && forall other :: IsRunStart(history, other) ==> other == start
    ensures StatusOfRun(windowSeconds, history, start, AfterHistory(windowSeconds, history).status)
    ensures FailureRunOf(history, start, AfterHistory(windowSeconds, history).firstFailureAt)
  {
    start := RunStartExists(history);
    forall other | IsRunStart(history, other) ensures other == start {
      RunStartIsUnique(history, other, start);
    }
    StatusIsHistory(windowSeconds, history, start);
    FailureRunIsHistory(windowSeconds, history, start);
  }
}
