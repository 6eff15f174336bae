/** When a probe in flight across a pause and a resume may bring an older failure run back. */
module FailureRuns {
  import opened Prelude
  import opened StatusController
  import opened Incidents
  import opened IncidentLaws
  import opened IncidentTransactions
  import opened Protocol

  /** Every monitor has a last reset, and none lies in the future. */
  ghost predicate ResetsOk(w: World) {
    && (forall m :: m in w.db.monitors ==> m in w.resetAt)
    && (forall m :: m in w.resetAt ==> w.resetAt[m] <= w.clock)
  }

  /** No failure run on any row began before that row was last paused or resumed. */
  ghost predicate RunsAfterReset(w: World)
    requires ResetsOk(w)
  {
    forall m :: m in w.db.monitors && w.db.monitors[m].firstFailureAt.Some? ==>
      w.resetAt[m] <= w.db.monitors[m].firstFailureAt.value
  }

  /** A check starts a run with a clock reading that a reset has overtaken. */
  ghost predicate StaleWrite(w: World, a: Action)
    requires ResetsOk(w)
  {
    a.Resume? &&
    match TaskOf(w, a.t)
    case Judged(m, seen, verdict, _, now, _) =>
      && WriteMatches(w.db, m, seen) && verdict.Down? && seen.firstFailureAt.None? && now < w.resetAt[m]
    case _ => false
  }

  /** No transaction of a task but the check's write moves a monitor row. */
  lemma CommitsOnMonitors(db: Db, task: Task, clock: Time, answer: Answer)
    requires !task.Judged?
    ensures Commits(db, task, clock, answer).monitors == db.monitors
  {
  }

  lemma WritesOnMonitors(w: World, a: Action, m: Id)
    requires m in Writes(w, a).monitors
    ensures m in w.db.monitors || m in Resets(w, a)
    ensures if m in Resets(w, a) then Writes(w, a).monitors[m].firstFailureAt.None?
            else Writes(w, a).monitors[m].firstFailureAt == w.db.monitors[m].firstFailureAt
  {
  }

  lemma ResetsKeep(w: World, a: Action)
    requires ResetsOk(w)
    ensures ResetsOk(Next(w, a))
  {
    if a.Resume? {
      if !TaskOf(w, a.t).Judged? { CommitsOnMonitors(w.db, TaskOf(w, a.t), w.clock, a.answer); }
    } else {
      forall m | m in Writes(w, a).monitors ensures m in w.db.monitors || m in Resets(w, a) {
        WritesOnMonitors(w, a, m);
      }
    }
  }

  lemma RecordStep(w: World, t: TaskId, answer: Answer)
    requires ResetsOk(w) && RunsAfterReset(w) && TaskOf(w, t).Judged?
    ensures ResetsOk(Next(w, Resume(t, answer)))
    ensures RunsAfterReset(Next(w, Resume(t, answer))) <==> !StaleWrite(w, Resume(t, answer))
  {
    var task := TaskOf(w, t);
    var after := Next(w, Resume(t, answer));
    assert after.db == RecordCheckOutcome(w.db, task.m, task.seen, task.verdict, task.degradedResolves, task.now);
    if StaleWrite(w, Resume(t, answer)) {
      assert after.db.monitors[task.m].firstFailureAt == Some(task.now);
    }
  }

  /** One step keeps every run after its reset exactly when it is not such a write. */
  lemma RunStep(w: World, a: Action)
    requires ResetsOk(w) && RunsAfterReset(w)
    ensures ResetsOk(Next(w, a))
    ensures RunsAfterReset(Next(w, a)) <==> !StaleWrite(w, a)
  {
    ResetsKeep(w, a);
    if a.Resume? {
      if TaskOf(w, a.t).Judged? {
        RecordStep(w, a.t, a.answer);
      } else {
        CommitsOnMonitors(w.db, TaskOf(w, a.t), w.clock, a.answer);
      }
    } else {
      OtherTasksOkDb(w, a);
      forall m | m in Next(w, a).db.monitors && Next(w, a).db.monitors[m].firstFailureAt.Some?
        ensures Next(w, a).resetAt[m] <= Next(w, a).db.monitors[m].firstFailureAt.value
      {
        WritesOnMonitors(w, a, m);
      }
    }
  }

  lemma OtherTasksOkDb(w: World, a: Action)
    requires !a.Resume?
    ensures Next(w, a).db == Writes(w, a)
    ensures forall m :: m in w.resetAt && m !in Resets(w, a) ==>
              m in Next(w, a).resetAt && Next(w, a).resetAt[m] == w.resetAt[m]
  {
  }

  ghost predicate AlwaysAfterReset(w: World, actions: seq<Action>)
    requires ResetsOk(w)
    decreases |actions|
  {
    && RunsAfterReset(w)
    && (actions != [] ==>
          ResetsOk(Next(w, actions[0])) && AlwaysAfterReset(Next(w, actions[0]), actions[1..]))
  }

  ghost predicate NoStaleWrite(w: World, actions: seq<Action>)
    requires ResetsOk(w)
    decreases |actions|
  {
    actions != [] ==>
      && !StaleWrite(w, actions[0])
      && ResetsOk(Next(w, actions[0])) && NoStaleWrite(Next(w, actions[0]), actions[1..])
  }

  /** Over a whole run: no run older than a resume is ever stored, exactly when no write used an overtaken clock. */
  lemma {:induction false} AlwaysIffNoStaleWrite(w: World, actions: seq<Action>)
    requires ResetsOk(w) && RunsAfterReset(w)
    ensures AlwaysAfterReset(w, actions) <==> NoStaleWrite(w, actions)
    decreases |actions|
  {
    if actions != [] {
      RunStep(w, actions[0]);
      var next := Next(w, actions[0]);
      if RunsAfterReset(next) {
        AlwaysIffNoStaleWrite(next, actions[1..]);
      }
    }
  }

  /** A check whose clock is read in the recording step is never such a write. */
  lemma FreshClockIsNotStale(w: World, t: TaskId, verdict: Verdict, degradedResolves: bool, lines: nat, answer: Answer)
    requires ResetsOk(w) && !TaskOf(w, t).Judged?
    ensures var judged := Next(w, Judge(t, verdict, degradedResolves, lines));
            ResetsOk(judged) && !StaleWrite(judged, Resume(t, answer))
  {
    var judged := Next(w, Judge(t, verdict, degradedResolves, lines));
    assert judged.db == w.db && judged.resetAt == w.resetAt;
  }

  /** Every verdict is judged against the clock in the step that records it: nothing comes in between. */
  ghost predicate ClockReadAtWrite(actions: seq<Action>)
    decreases |actions|
  {
    if actions == [] then true
    else if actions[0].Judge? then
      && |actions| > 1 && actions[1].Resume? && actions[1].t == actions[0].t
      && ClockReadAtWrite(actions[2..])
    else ClockReadAtWrite(actions[1..])
  }

  ghost predicate NoneJudged(w: World) {
    forall t :: t in w.tasks ==> !w.tasks[t].Judged?
  }

  lemma JudgedComesOfJudge(w: World, a: Action)
    requires NoneJudged(w) && !a.Judge?
    ensures NoneJudged(Next(w, a))
  {
    if a.Resume? {
      assert !Continues(w.db, TaskOf(w, a.t), a.answer).Judged?;
    }
  }

  lemma JudgedAndRecorded(w: World, judge: Action, record: Action)
    requires NoneJudged(w) && judge.Judge? && record.Resume? && record.t == judge.t
    ensures NoneJudged(Next(Next(w, judge), record))
  {
    var judged := Next(w, judge);
    assert forall t :: t in judged.tasks && t != judge.t ==> !judged.tasks[t].Judged?;
    assert !Continues(judged.db, TaskOf(judged, record.t), record.answer).Judged?;
  }

  /** With every clock read at the write, no run ever stores a failure run older than the last reset. */
  lemma {:induction false} ClockAtWriteSuffices(w: World, actions: seq<Action>)
    requires ResetsOk(w) && RunsAfterReset(w) && NoneJudged(w) && ClockReadAtWrite(actions)
    ensures AlwaysAfterReset(w, actions)
    decreases |actions|
  {
    if actions != [] {
      RunStep(w, actions[0]);
      var next := Next(w, actions[0]);
      if actions[0].Judge? {
        var judge, record := actions[0], actions[1];
        FreshClockIsNotStale(w, judge.t, judge.verdict, judge.degradedResolves, judge.lines, record.answer);
        RunStep(next, record);
        JudgedAndRecorded(w, judge, record);
        assert actions[1..][1..] == actions[2..];
        ClockAtWriteSuffices(Next(next, record), actions[2..]);
      } else {
        JudgedComesOfJudge(w, actions[0]);
        ClockAtWriteSuffices(next, actions[1..]);
      }
    }
  }

  /** A world with one monitor, one task and no incident. */
  function Lone(row: Monitor, tasks: map<TaskId, Task>, clock: Time, reset: Time): World {
    World(Db(map[0 := row], map[], map[], map[]), tasks, clock, {}, map[0 := reset])
  }

  const QUIET := Monitor(60, false, IsUnknown, None, None)
  const IN_FLIGHT := Judged(0, QUIET, Down, true, 0, 0)
  const ANSWER := Answer(0, false, false)

  lemma ProbeStarts()
    ensures Next(EMPTY, AddMonitor(0, 60, None)) == Lone(QUIET, map[], 0, 0)
    ensures Next(Lone(QUIET, map[], 0, 0), StartCheck(0, 0)) == Lone(QUIET, map[0 := Probing(0, QUIET)], 0, 0)
    ensures Next(Lone(QUIET, map[0 := Probing(0, QUIET)], 0, 0), Judge(0, Down, true, 0))
         == Lone(QUIET, map[0 := IN_FLIGHT], 0, 0)
  {
    assert map[0 := Probing(0, QUIET)][0 := IN_FLIGHT] == map[0 := IN_FLIGHT];
  }

  lemma PauseAndResume()
    ensures Next(Lone(QUIET, map[0 := IN_FLIGHT], 0, 0), Tick(1)) == Lone(QUIET, map[0 := IN_FLIGHT], 1, 0)
    ensures Next(Lone(QUIET, map[0 := IN_FLIGHT], 1, 0), SetPaused(0, true))
         == Lone(QUIET.(paused := true), map[0 := IN_FLIGHT], 1, 1)
    ensures Next(Lone(QUIET.(paused := true), map[0 := IN_FLIGHT], 1, 1), SetPaused(0, false))
         == Lone(QUIET, map[0 := IN_FLIGHT], 1, 1)
  {
  }

  /** The verdict's clock is read at 0, the monitor is paused and resumed at 1, and only then does the check write. */
  function ResumeInFlight(): seq<Action> {
    [AddMonitor(0, 60, None), StartCheck(0, 0), Judge(0, Down, true, 0)]
    + [Tick(1), SetPaused(0, true), SetPaused(0, false)] + [Resume(0, ANSWER)]
  }

  lemma InFlightReached()
    ensures var xs, ys := [AddMonitor(0, 60, None), StartCheck(0, 0), Judge(0, Down, true, 0)],
                          [Tick(1), SetPaused(0, true), SetPaused(0, false)];
            Run(EMPTY, xs + ys) == Lone(QUIET, map[0 := IN_FLIGHT], 1, 1)
  {
    var xs, ys := [AddMonitor(0, 60, None), StartCheck(0, 0), Judge(0, Down, true, 0)],
                  [Tick(1), SetPaused(0, true), SetPaused(0, false)];
    ProbeStarts();
    PauseAndResume();
    RunThree(EMPTY, xs[0], xs[1], xs[2]);
    RunThree(Lone(QUIET, map[0 := IN_FLIGHT], 0, 0), ys[0], ys[1], ys[2]);
    RunConcat(EMPTY, xs, ys);
  }

  lemma WriteIsStale()
    ensures var w := Lone(QUIET, map[0 := IN_FLIGHT], 1, 1);
            var after := Next(w, Resume(0, ANSWER));
            && ResetsOk(after) && !RunsAfterReset(after)
            && 0 in after.db.monitors && !after.db.monitors[0].paused
  {
    var w := Lone(QUIET, map[0 := IN_FLIGHT], 1, 1);
    RunStep(w, Resume(0, ANSWER));
    assert StaleWrite(w, Resume(0, ANSWER));
  }

  /** The write lands, and the stored run began before the resume. */
  lemma StaleWriteHappens()
    ensures ResetsOk(Run(EMPTY, ResumeInFlight())) && !RunsAfterReset(Run(EMPTY, ResumeInFlight()))
    ensures var monitors := Run(EMPTY, ResumeInFlight()).db.monitors;
            0 in monitors && !monitors[0].paused
  {
    var before := [AddMonitor(0, 60, None), StartCheck(0, 0), Judge(0, Down, true, 0)]
                  + [Tick(1), SetPaused(0, true), SetPaused(0, false)];
    InFlightReached();
    WriteIsStale();
    RunConcat(EMPTY, before, [Resume(0, ANSWER)]);
    RunCons(Lone(QUIET, map[0 := IN_FLIGHT], 1, 1), Resume(0, ANSWER), []);
    assert [Resume(0, ANSWER)] + [] == [Resume(0, ANSWER)];
  }
}
