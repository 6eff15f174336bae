/** What every interleaving of workers, operators and crashes guarantees about an incident. */
module ProtocolTheorems {
  import opened Prelude
  import opened StatusController
  import opened Incidents
  import opened IncidentLaws
  import opened IncidentTransactions
  import opened Protocol

  // ----- paging -----

  /** Marked notified exactly when the opened intent is committed; a shadow incident never gets either. */
  lemma NotifiedIffIntent(actions: seq<Action>, i: Id)
    requires i in Run(EMPTY, actions).db.incidents && Run(EMPTY, actions).db.incidents[i].source.Automatic?
    ensures var db := Run(EMPTY, actions).db;
            && (db.incidents[i].notifiedAt.Some? <==> OpenedCause(i) in db.intents)
            && (db.incidents[i].shadow ==> db.incidents[i].notifiedAt.None? && OpenedCause(i) !in db.intents)
  {
    EmptyIsInv();
    RunKeeps(EMPTY, actions);
    var db := Run(EMPTY, actions).db;
    assert OpenedCause(i) in db.intents <==> IsOpenedFor(db, i);
  }

  /** At most one open automatic incident per monitor, in every reachable world. */
  lemma OneIncidentPerMonitor(actions: seq<Action>, i: Id, j: Id, m: Id)
    requires var db := Run(EMPTY, actions).db;
             i in db.incidents && j in db.incidents && db.incidents[i].ActiveFor(m) && db.incidents[j].ActiveFor(m)
    ensures i == j
  {
    EmptyIsInv();
    RunKeeps(EMPTY, actions);
  }

  // ----- closing -----

  /**
   * The step that closes an announced incident commits its all-clear, for the channels and for the
   * responders alike, under a key that was not there before.
   */
  lemma ClosingAnnounces(actions: seq<Action>, a: Action, i: Id)
    requires var db := Run(EMPTY, actions).db; i in db.incidents && db.incidents[i].Active()
    requires i in Next(Run(EMPTY, actions), a).db.incidents ==> !Next(Run(EMPTY, actions), a).db.incidents[i].Active()
    ensures var before, after := Run(EMPTY, actions).db, Next(Run(EMPTY, actions), a).db;
            && ResolvedCause(i) !in before.intents
            && (before.incidents[i].notifiedAt.Some? ==>
                  ResolvedCause(i) in after.intents && after.intents[ResolvedCause(i)] == Intent(true))
  {
    EmptyIsInv();
    RunKeeps(EMPTY, actions);
    NextKeeps(Run(EMPTY, actions), a);
    assert IncidentEvolves(Run(EMPTY, actions).db, Next(Run(EMPTY, actions), a).db, i);
  }

  /** An all-clear exists only for an incident that is closed. */
  lemma AllClearMeansClosed(actions: seq<Action>, i: Id)
    requires ResolvedCause(i) in Run(EMPTY, actions).db.intents
    ensures var db := Run(EMPTY, actions).db;
            i in db.incidents && db.incidents[i].status == Resolved && db.incidents[i].resolvedAt.Some?
  {
    EmptyIsInv();
    RunKeeps(EMPTY, actions);
    assert RowOk(Run(EMPTY, actions).db.incidents[i]);
  }

  /** Closed is terminal: whatever anybody read earlier, nothing about the closed row moves again. */
  lemma {:induction false} ResolvedIsTerminal(w: World, actions: seq<Action>, i: Id)
    requires Inv(w) && i in w.db.incidents && w.db.incidents[i].status == Resolved
    ensures var after := Run(w, actions).db;
            && i in after.incidents
            && var before, row := w.db.incidents[i], after.incidents[i];
            && row.status == Resolved && row.resolvedAt == before.resolvedAt && row.severity == before.severity
            && row.acknowledgedAt == before.acknowledgedAt && row.acknowledgedBy == before.acknowledgedBy
            && row.revision == before.revision
            && (ResolvedCause(i) in after.intents <==> ResolvedCause(i) in w.db.intents)
    decreases |actions|
  {
    if actions != [] {
      NextKeeps(w, actions[0]);
      assert IncidentEvolves(w.db, Next(w, actions[0]).db, i);
      ResolvedIsTerminal(Next(w, actions[0]), actions[1..], i);
    }
  }

  // ----- the revision -----

  /** How many actions of the run move the incident's status. */
  ghost function Moves(w: World, actions: seq<Action>, i: Id): nat
    decreases |actions|
  {
    if actions == [] || i !in w.db.incidents then 0
    else
      var next := Next(w, actions[0]);
      (if i in next.db.incidents && next.db.incidents[i].status != w.db.incidents[i].status then 1 else 0)
      + Moves(next, actions[1..], i)
  }

  /** The revision counts status changes and nothing else. */
  lemma {:induction false} RevisionCountsMoves(w: World, actions: seq<Action>, i: Id)
    requires Inv(w) && i in w.db.incidents
    ensures i in Run(w, actions).db.incidents
    ensures Run(w, actions).db.incidents[i].revision == w.db.incidents[i].revision + Moves(w, actions, i)
    decreases |actions|
  {
    if actions != [] {
      NextKeeps(w, actions[0]);
      assert IncidentEvolves(w.db, Next(w, actions[0]).db, i);
      RevisionCountsMoves(Next(w, actions[0]), actions[1..], i);
    }
  }

  /** An equal revision is a fence: the status held one value through every world in between. */
  lemma {:induction false} EqualRevisionsFence(w: World, actions: seq<Action>, i: Id, n: nat)
    requires Inv(w) && i in w.db.incidents && n <= |actions|
    requires Run(w, actions).db.incidents.Keys >= {i}
    requires Run(w, actions).db.incidents[i].revision == w.db.incidents[i].revision
    ensures var between := Run(w, actions[..n]).db;
            i in between.incidents && between.incidents[i].status == w.db.incidents[i].status
    decreases n
  {
    if n > 0 {
      var next := Next(w, actions[0]);
      FenceStep(w, actions[0], actions[1..], i);
      assert actions[..n][1..] == actions[1..][..n - 1];
      EqualRevisionsFence(next, actions[1..], i, n - 1);
    }
  }

  lemma FenceStep(w: World, a: Action, rest: seq<Action>, i: Id)
    requires Inv(w) && i in w.db.incidents
    ensures var next := Next(w, a);
            && Inv(next) && i in next.db.incidents && i in Run(next, rest).db.incidents
            && w.db.incidents[i].revision <= next.db.incidents[i].revision <= Run(next, rest).db.incidents[i].revision
            && (next.db.incidents[i].revision == w.db.incidents[i].revision ==>
                  next.db.incidents[i].status == w.db.incidents[i].status)
  {
    NextKeeps(w, a);
    assert IncidentEvolves(w.db, Next(w, a).db, i);
    RevisionCountsMoves(Next(w, a), rest, i);
  }

  // ----- the channels' all-clear, exactly -----

  predicate AnnouncedAndClosed(row: Incident) {
    row.source.Automatic? && row.notifiedAt.Some? && row.status == Resolved
  }

  /**
   * The channels and the status page, which every intent reaches, are told of the end of whatever they
   * were told the start of. Who is mailed is another matter; see `Responders`.
   */
  ghost predicate AllClear(db: Db) {
    forall i :: i in db.incidents && AnnouncedAndClosed(db.incidents[i]) ==> ResolvedCause(i) in db.intents
  }

  /** The incident a claim is about to spend, if the action is a claim. */
  function ClaimTarget(w: World, a: Action): Option<Id> {
    match a
    case Resume(t, _) => if TaskOf(w, t).Claiming? then Some(TaskOf(w, t).i) else None
    case ReleaseHold(i, _) => if i in w.asked then Some(i) else None
    case _ => None
  }

  /** A claim that announces an incident already closed without an all-clear to any channel. */
  ghost predicate LateClaim(w: World, a: Action) {
    var target := ClaimTarget(w, a);
    && target.Some? && target.value in w.db.incidents
    && w.db.incidents[target.value].notifiedAt.None? && w.db.incidents[target.value].status == Resolved
    && ResolvedCause(target.value) !in w.db.intents
  }

  lemma ResumeNotifies(w: World, t: TaskId, answer: Answer, i: Id)
    requires Inv(w) && i in w.db.incidents && w.db.incidents[i].notifiedAt.None?
    ensures var after := Next(w, Resume(t, answer)).db;
            && i in after.incidents
            && (after.incidents[i].notifiedAt.Some? <==> ClaimTarget(w, Resume(t, answer)) == Some(i))
  {
    TaskNotifies(w.db, TaskOf(w, t), w.clock, answer, i);
  }

  /** Nothing but a claim ever marks an incident notified. */
  lemma OnlyClaimNotifies(w: World, a: Action, i: Id)
    requires Inv(w) && i in w.db.incidents && w.db.incidents[i].notifiedAt.None?
    ensures i in Next(w, a).db.incidents
    ensures Next(w, a).db.incidents[i].notifiedAt.Some? <==> ClaimTarget(w, a) == Some(i)
  {
    if a.Resume? {
      ResumeNotifies(w, a.t, a.answer, i);
    } else {
      OtherTasksOk(w, a);
      WriteNotifies(w, a, i);
    }
  }

  /** Writes that close, move or delete leave every alert as it was. */
  lemma BulkNotifies(w: World, a: Action, i: Id)
    requires (a.Delete? || a.EndBridge?) && i in w.db.incidents
    ensures i in Writes(w, a).incidents && Writes(w, a).incidents[i].notifiedAt == w.db.incidents[i].notifiedAt
  {
  }

  lemma PlainNotifies(w: World, a: Action, i: Id)
    requires (a.AddMonitor? || a.SetPaused? || a.Report? || a.Post?) && i in w.db.incidents
    ensures i in Writes(w, a).incidents && Writes(w, a).incidents[i].notifiedAt == w.db.incidents[i].notifiedAt
  {
  }

  lemma WriteNotifies(w: World, a: Action, i: Id)
    requires i in w.db.incidents && w.db.incidents[i].notifiedAt.None?
    ensures i in Writes(w, a).incidents
    ensures Writes(w, a).incidents[i].notifiedAt.Some? <==> a.ReleaseHold? && a.i in w.asked && a.i == i
  {
    if a.Delete? || a.EndBridge? {
      BulkNotifies(w, a, i);
    } else if a.AddMonitor? || a.SetPaused? || a.Report? || a.Post? {
      PlainNotifies(w, a, i);
    }
  }

  lemma OperatorNotifies(db: Db, task: Task, clock: Time, answer: Answer, i: Id)
    requires (task.Acking? || task.Moving? || task.Grading?) && i in db.incidents
    ensures var after := Commits(db, task, clock, answer);
            i in after.incidents && after.incidents[i].notifiedAt == db.incidents[i].notifiedAt
  {
  }

  lemma TaskNotifies(db: Db, task: Task, clock: Time, answer: Answer, i: Id)
    requires DbInv(db) && i in db.incidents
    ensures var after := Commits(db, task, clock, answer);
            i in after.incidents && (after.incidents[i].notifiedAt != db.incidents[i].notifiedAt <==>
                                     db.incidents[i].notifiedAt.None? && task.Claiming? && task.i == i)
  {
    if task.Acking? || task.Moving? || task.Grading? {
      OperatorNotifies(db, task, clock, answer, i);
    }
  }

  /** A step keeps the channels' all-clear exactly when it is not such a claim. */
  lemma AllClearStep(w: World, a: Action)
    requires Inv(w) && AllClear(w.db)
    ensures AllClear(Next(w, a).db) <==> !LateClaim(w, a)
  {
    NextKeeps(w, a);
    var after := Next(w, a).db;
    if LateClaim(w, a) {
      var i := ClaimTarget(w, a).value;
      OnlyClaimNotifies(w, a, i);
      assert IncidentEvolves(w.db, after, i);
      assert TaskOk(w.db, if a.Resume? then TaskOf(w, a.t) else Idle);
    } else {
      forall i | i in after.incidents && AnnouncedAndClosed(after.incidents[i])
        ensures ResolvedCause(i) in after.intents
      {
        if i in w.db.incidents {
          if w.db.incidents[i].notifiedAt.None? { OnlyClaimNotifies(w, a, i); }
          assert IncidentEvolves(w.db, after, i);
        }
      }
    }
  }

  lemma BrokenStays(w: World, a: Action)
    requires Inv(w) && !AllClear(w.db)
    ensures !AllClear(Next(w, a).db)
  {
    NextKeeps(w, a);
    var i :| i in w.db.incidents && AnnouncedAndClosed(w.db.incidents[i]) && ResolvedCause(i) !in w.db.intents;
    assert IncidentEvolves(w.db, Next(w, a).db, i);
  }

  ghost predicate NoLateClaim(w: World, actions: seq<Action>)
    decreases |actions|
  {
    actions == [] || (!LateClaim(w, actions[0]) && NoLateClaim(Next(w, actions[0]), actions[1..]))
  }

  lemma {:induction false} BrokenStaysForever(w: World, actions: seq<Action>)
    requires Inv(w) && !AllClear(w.db)
    ensures !AllClear(Run(w, actions).db)
    decreases |actions|
  {
    if actions != [] {
      NextKeeps(w, actions[0]);
      BrokenStays(w, actions[0]);
      BrokenStaysForever(Next(w, actions[0]), actions[1..]);
    }
  }

  /** Over a whole run: every announced end reaches the channels, exactly when no claim came after a close that told none. */
  lemma {:induction false} AllClearIffNoLateClaim(w: World, actions: seq<Action>)
    requires Inv(w) && AllClear(w.db)
    ensures AllClear(Run(w, actions).db) <==> NoLateClaim(w, actions)
    decreases |actions|
  {
    if actions != [] {
      NextKeeps(w, actions[0]);
      AllClearStep(w, actions[0]);
      if LateClaim(w, actions[0]) {
        BrokenStaysForever(Next(w, actions[0]), actions[1..]);
      } else {
        AllClearIffNoLateClaim(Next(w, actions[0]), actions[1..]);
      }
    }
  }
}
