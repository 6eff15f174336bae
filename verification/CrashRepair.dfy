/**
 * Repair after a crash: what one undisturbed check achieves from any world a run can leave behind.
 */
module CrashRepair {
  import opened Prelude
  import opened StatusController
  import opened Incidents
  import opened IncidentLaws
  import opened IncidentTransactions
  import opened Protocol

  // ----- one down check, run to its end without interference -----

  predicate WindowPassed(row: Monitor, now: Time) {
    (if row.firstFailureAt.Some? then now - row.firstFailureAt.value else 0) >= row.windowSeconds * 1000
  }

  /** The reads and transactions of one `applyOutcome` on a down verdict with no Docker lines. */
  function DownCheck(t: TaskId, m: Id, degradedResolves: bool, answer: Answer): seq<Action> {
    [StartCheck(t, m), Judge(t, Down, degradedResolves, 0)] + Resumes(t, answer, 5)
  }

  function Resumes(t: TaskId, answer: Answer, n: nat): (r: seq<Action>)
    ensures |r| == n && forall k :: 0 <= k < n ==> r[k] == Resume(t, answer)
  {
    if n == 0 then [] else [Resume(t, answer)] + Resumes(t, answer, n - 1)
  }

  predicate Decided(lines: seq<Event>) {
    System(ShadowDecision) in lines || System(HoldDecision) in lines
  }

  /** Somebody was paged with the intent committed, or a hold or shadow decision is on record. */
  predicate Handled(db: Db, i: Id)
    requires i in db.incidents
  {
    (db.incidents[i].notifiedAt.Some? && OpenedCause(i) in db.intents) || Decided(Lines(db, i))
  }

  /** An incident nobody handled that the repair query nevertheless refuses, because of another system line. */
  predicate Hidden(db: Db, m: Id, i: Id) {
    && i in db.incidents && db.incidents[i].ActiveFor(m)
    && db.incidents[i].notifiedAt.None? && !Decided(Lines(db, i))
    && exists e :: e in Lines(db, i) && e.System?
  }

  /** The only lines that hide an incident are Docker's and an operator's acknowledgement. */
  lemma WhatHides(db: Db, m: Id, i: Id)
    requires DbInv(db) && Hidden(db, m, i)
    ensures System(DockerLine) in Lines(db, i) || System(Acknowledged) in Lines(db, i)
    ensures forall e :: e in Lines(db, i) && e.System? ==> e.note.DockerLine? || e.note.Acknowledged?
  {
    assert NoClosingLine(Lines(db, i));
    forall e | e in Lines(db, i) && e.System? ensures e.note.DockerLine? || e.note.Acknowledged? {
      assert e == System(e.note);
    }
    var e :| e in Lines(db, i) && e.System?;
    assert e == System(e.note);
  }

  /** A task that is done does nothing more. */
  lemma {:induction false} IdleStays(w: World, t: TaskId, answer: Answer, n: nat)
    requires TaskOf(w, t) == Idle
    ensures Run(w, Resumes(t, answer, n)).db == w.db && TaskOf(Run(w, Resumes(t, answer, n)), t) == Idle
    decreases n
  {
    if n > 0 {
      RunCons(w, Resume(t, answer), Resumes(t, answer, n - 1));
      IdleStays(Next(w, Resume(t, answer)), t, answer, n - 1);
    }
  }

  lemma CheckIsJudged(w: World, t: TaskId, m: Id, degradedResolves: bool)
    requires TaskOf(w, t) == Idle && m in w.db.monitors
    ensures var judged := Next(Next(w, StartCheck(t, m)), Judge(t, Down, degradedResolves, 0));
            && judged.db == w.db
            && TaskOf(judged, t) == Judged(m, w.db.monitors[m], Down, degradedResolves, w.clock, 0)
  {
  }

  /** A down verdict past the window, judged on the row as it still is, is recorded and opens. */
  lemma JudgedReachesOpening(w: World, t: TaskId, m: Id, degradedResolves: bool, now: Time, answer: Answer)
    requires m in w.db.monitors && TaskOf(w, t) == Judged(m, w.db.monitors[m], Down, degradedResolves, now, 0)
    requires !w.db.monitors[m].paused && WindowPassed(w.db.monitors[m], now)
    ensures var after := Next(w, Resume(t, answer));
            && TaskOf(after, t) == Opening(m, 0)
            && after.db == w.db.(monitors := after.db.monitors)
            && m in after.db.monitors && after.db.monitors[m].status == IsDown && !after.db.monitors[m].paused
  {
    StepIs(w, t, answer);
  }

  /** The check's write lands, and the worker is about to open. */
  lemma CheckReachesOpening(w: World, t: TaskId, m: Id, degradedResolves: bool, answer: Answer)
    requires Inv(w) && TaskOf(w, t) == Idle && m in w.db.monitors
    requires !w.db.monitors[m].paused && WindowPassed(w.db.monitors[m], w.clock)
    ensures var after := Run(w, [StartCheck(t, m), Judge(t, Down, degradedResolves, 0), Resume(t, answer)]);
            && Inv(after) && TaskOf(after, t) == Opening(m, 0)
            && after.db == w.db.(monitors := after.db.monitors)
            && m in after.db.monitors && after.db.monitors[m].status == IsDown && !after.db.monitors[m].paused
  {
    var first, second, third := StartCheck(t, m), Judge(t, Down, degradedResolves, 0), Resume(t, answer);
    CheckIsJudged(w, t, m, degradedResolves);
    JudgedReachesOpening(Next(Next(w, first), second), t, m, degradedResolves, w.clock, answer);
    RunThree(w, first, second, third);
    RunKeeps(w, [first, second, third]);
  }

  lemma StepIs(w: World, t: TaskId, answer: Answer)
    ensures var next := Next(w, Resume(t, answer));
            && next.db == Commits(w.db, TaskOf(w, t), w.clock, answer)
            && TaskOf(next, t) == Continues(w.db, TaskOf(w, t), answer)
            && next.clock == w.clock
  {
  }

  lemma DecisionRecorded(db: Db, i: Id, note: Note)
    requires i in db.incidents && (note.ShadowDecision? || note.HoldDecision?)
    ensures var after := RecordSystemEvent(db, i, note);
            after.incidents == db.incidents && Handled(after, i)
  {
    assert Lines(RecordSystemEvent(db, i, note), i) == Lines(db, i) + [System(note)];
  }

  lemma PageRecorded(db: Db, i: Id, now: Time, pagedElsewhere: bool)
    requires DbInv(db) && Pageable(db, i)
    ensures var after := ClaimNotification(db, i, now, pagedElsewhere);
            && i in after.incidents && Handled(after, i)
            && after.incidents[i] == db.incidents[i].(notifiedAt := after.incidents[i].notifiedAt)
  {
    ClaimKeeps(db, i, now, pagedElsewhere);
    FreshCauses(db, i);
  }

  /** From the decision on, the incident ends up handled, and its row is otherwise left alone. */
  lemma DecisionHandles(w: World, t: TaskId, i: Id, shadow: bool, answer: Answer)
    requires Inv(w) && TaskOf(w, t) == Deciding(i, shadow)
    ensures i in w.db.incidents
    ensures var after := Run(w, Resumes(t, answer, 2)).db;
            && i in after.incidents && Handled(after, i)
            && after.incidents[i] == w.db.incidents[i].(notifiedAt := after.incidents[i].notifiedAt)
  {
    var r := Resume(t, answer);
    assert TaskOk(w.db, TaskOf(w, t));
    var w1 := Next(w, r);
    RunCons(w, r, Resumes(t, answer, 1));
    StepIs(w, t, answer);
    if shadow {
      IdleStays(w1, t, answer, 1);
      DecisionRecorded(w.db, i, ShadowDecision);
    } else {
      RunCons(w1, r, Resumes(t, answer, 0));
      StepIs(w1, t, answer);
      if answer.held {
        DecisionRecorded(w.db, i, HoldDecision);
      } else {
        PageRecorded(w.db, i, w1.clock, answer.pagedElsewhere);
      }
    }
  }

  /** With nothing open, the check opens one incident and handles it. */
  lemma OpensAndHandles(w: World, t: TaskId, m: Id, answer: Answer)
    requires Inv(w) && TaskOf(w, t) == Opening(m, 0) && !HasActive(w.db, m)
    requires m in w.db.monitors && w.db.monitors[m].status == IsDown && !w.db.monitors[m].paused
    requires answer.newId !in w.db.incidents
    ensures var after := Run(w, Resumes(t, answer, 4)).db;
            var i := answer.newId;
            i in after.incidents && after.incidents[i].ActiveFor(m) && Handled(after, i)
  {
    var r := Resume(t, answer);
    var w1 := Next(w, r);
    StepIs(w, t, answer);
    OpenKeeps(w.db, m, answer.newId);
    assert TaskOf(w1, t) == Noting(answer.newId, 0);
    TwoStepsToDeciding(w, t, answer, answer.newId);
  }

  /** A worker with no Docker lines to note, or one that found the incident, decides about it next. */
  lemma ReachesDeciding(w: World, t: TaskId, answer: Answer, i: Id)
    requires Inv(w)
    requires var task := TaskOf(w, t);
             || (task == Noting(i, 0) && i in w.db.incidents)
             || (task.Seeking? && FindUnhandled(w.db, task.m) == Some(i))
    ensures var next := Next(w, Resume(t, answer));
            && Inv(next) && next.db == w.db && i in w.db.incidents
            && TaskOf(next, t) == Deciding(i, w.db.incidents[i].shadow)
  {
    NextKeeps(w, Resume(t, answer));
    StepIs(w, t, answer);
  }

  /** Two steps in, the worker decides about `i`, whose row and timeline nobody has touched since. */
  lemma TwoStepsToDeciding(w: World, t: TaskId, answer: Answer, i: Id)
    requires Inv(w)
    requires var w1 := Next(w, Resume(t, answer)); var task := TaskOf(w1, t);
             || (task == Noting(i, 0) && i in w1.db.incidents)
             || (task.Seeking? && FindUnhandled(w1.db, task.m) == Some(i))
    ensures var w1 := Next(w, Resume(t, answer));
            var after := Run(w, Resumes(t, answer, 4)).db;
            && i in w1.db.incidents && i in after.incidents && Handled(after, i)
            && after.incidents[i] == w1.db.incidents[i].(notifiedAt := after.incidents[i].notifiedAt)
  {
    var r := Resume(t, answer);
    var w1 := Next(w, r);
    var w2 := Next(w1, r);
    RunCons(w, r, Resumes(t, answer, 3));
    RunCons(w1, r, Resumes(t, answer, 2));
    NextKeeps(w, r);
    ReachesDeciding(w1, t, answer, i);
    DecisionHandles(w2, t, i, w1.db.incidents[i].shadow, answer);
  }

  /** With an incident open, the check finishes what an interrupted one started, unless the row is hidden. */
  lemma FindsAndHandles(w: World, t: TaskId, m: Id, answer: Answer, i: Id)
    requires Inv(w) && TaskOf(w, t) == Opening(m, 0) && i in w.db.incidents && w.db.incidents[i].ActiveFor(m)
    requires answer.newId !in w.db.incidents
    ensures var after := Run(w, Resumes(t, answer, 4)).db;
            && i in after.incidents && after.incidents[i].ActiveFor(m)
            && (Handled(after, i) <==> !Hidden(w.db, m, i))
  {
    var r := Resume(t, answer);
    var w1 := Next(w, r);
    StepIs(w, t, answer);
    OpenKeeps(w.db, m, answer.newId);
    assert w1.db == w.db && TaskOf(w1, t) == Seeking(m);
    RepairQuerySees(w.db, m, i);
    if FindUnhandled(w.db, m).Some? {
      TwoStepsToDeciding(w, t, answer, i);
    } else {
      StepIs(w1, t, answer);
      RunCons(w, r, Resumes(t, answer, 3));
      RunCons(w1, r, Resumes(t, answer, 2));
      IdleStays(Next(w1, r), t, answer, 2);
    }
  }

  /** The query finds the open incident exactly when nobody handled it and no other system line hides it. */
  lemma RepairQuerySees(db: Db, m: Id, i: Id)
    requires DbInv(db) && i in db.incidents && db.incidents[i].ActiveFor(m)
    ensures FindUnhandled(db, m) == (if Handled(db, i) || Hidden(db, m, i) then None else Some(i))
    ensures !(Handled(db, i) && Hidden(db, m, i))
  {
    FreshCauses(db, i);
    assert Unhandled(db, m, i) <==> !(Handled(db, i) || Hidden(db, m, i));
    forall j | Unhandled(db, m, j) ensures j == i {
    }
  }

  /** The check split where the record lands. */
  lemma DownCheckSplits(w: World, t: TaskId, m: Id, degradedResolves: bool, answer: Answer)
    ensures var start := [StartCheck(t, m), Judge(t, Down, degradedResolves, 0), Resume(t, answer)];
            Run(w, DownCheck(t, m, degradedResolves, answer)) == Run(Run(w, start), Resumes(t, answer, 4))
  {
    var start := [StartCheck(t, m), Judge(t, Down, degradedResolves, 0), Resume(t, answer)];
    assert DownCheck(t, m, degradedResolves, answer) == start + Resumes(t, answer, 4);
    RunConcat(w, start, Resumes(t, answer, 4));
  }

  /**
   * Crash repair. Whatever transaction an earlier worker died after, one undisturbed down check past
   * the window leaves exactly one open automatic incident, and that incident is handled exactly when
   * the repair query could see it.
   */
  lemma CheckRepairs(w: World, t: TaskId, m: Id, degradedResolves: bool, answer: Answer) returns (i: Id)
    requires Inv(w) && TaskOf(w, t) == Idle && m in w.db.monitors
    requires !w.db.monitors[m].paused && WindowPassed(w.db.monitors[m], w.clock)
    requires answer.newId !in w.db.incidents
    ensures var after := Run(w, DownCheck(t, m, degradedResolves, answer)).db;
            && i in after.incidents && after.incidents[i].ActiveFor(m)
            && (forall j :: j in after.incidents && after.incidents[j].ActiveFor(m) ==> j == i)
            && (Handled(after, i) <==> !Hidden(w.db, m, i))
  {
    var start := [StartCheck(t, m), Judge(t, Down, degradedResolves, 0), Resume(t, answer)];
    DownCheckSplits(w, t, m, degradedResolves, answer);
    CheckReachesOpening(w, t, m, degradedResolves, answer);
    RunKeeps(w, DownCheck(t, m, degradedResolves, answer));
    var mid := Run(w, start);
    if HasActive(w.db, m) {
      i :| i in w.db.incidents && w.db.incidents[i].ActiveFor(m);
      FindsAndHandles(mid, t, m, answer, i);
      assert Lines(mid.db, i) == Lines(w.db, i);
    } else {
      i := answer.newId;
      OpensAndHandles(mid, t, m, answer);
    }
  }
}
