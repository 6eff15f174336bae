/**
 * A deletion's two statements take no lock on the monitor row. When the first finds nothing to close
 * it writes nothing, so anything may commit before the second. (When it does close an incident, the
 * unique index on open incidents holds up every other open until the deletion has committed.)
 */
module DeletionRace {
  import opened Prelude
  import opened StatusController
  import opened Incidents
  import opened IncidentLaws
  import opened IncidentTransactions
  import opened Protocol
  import opened LateClaim

  /** Open, a worker's, and of no monitor: nothing that looks incidents up by monitor finds it. */
  predicate Orphan(db: Db, i: Id) {
    i in db.incidents && db.incidents[i].source.Automatic? && db.incidents[i].Active() && db.incidents[i].monitorId.None?
  }

  /** The row goes after `actions` committed behind the first statement's back. */
  ghost function Raced(w: World, actions: seq<Action>, m: Id): World {
    var v := Run(w, actions);
    v.(db := DeleteRow(v.db, m))
  }

  /** Nothing open: the first statement changes nothing. */
  lemma NothingToClose(db: Db, m: Id, now: Time)
    requires DbInv(db) && !HasActive(db, m)
    ensures CloseForDeletion(db, m, now) == db
  {
    assert ActiveOf(db, {m}) == {};
    var closed := CloseForDeletion(db, m, now);
    assert Announced(db, {}) == {};
    assert closed.incidents == db.incidents && closed.timeline == db.timeline && closed.intents == db.intents;
  }

  /** The second statement orphans exactly what is open when it runs, and keeps the tables' rules exactly when that is nothing. */
  lemma DeleteRowOrphans(db: Db, m: Id)
    requires DbInv(db)
    ensures forall i :: Orphan(DeleteRow(db, m), i) <==> i in db.incidents && db.incidents[i].ActiveFor(m)
    ensures DbInv(DeleteRow(db, m)) <==> !HasActive(db, m)
  {
    var after := DeleteRow(db, m);
    forall i ensures Orphan(after, i) <==> i in db.incidents && db.incidents[i].ActiveFor(m) {
      assert i in db.incidents ==> RowOk(db.incidents[i]);
    }
    if HasActive(db, m) {
      var i :| i in db.incidents && db.incidents[i].ActiveFor(m);
      assert Orphan(after, i) && !RowOk(after.incidents[i]);
    } else {
      DetachKeepsRows(db, m, after);
      DetachKeepsOneActive(db, m, after);
      DetachKeepsIntents(db, m, after);
    }
  }

  /**
   * Exactly then. With nothing open at its first statement, a deletion leaves the tables as promised if and
   * only if nothing is open for the monitor when the second statement runs; otherwise it leaves an orphan.
   */
  lemma RacedKeepsIff(w: World, actions: seq<Action>, m: Id, now: Time)
    requires Inv(w) && !HasActive(w.db, m)
    ensures CloseForDeletion(w.db, m, now) == w.db
    ensures DbInv(Raced(w, actions, m).db) <==> !HasActive(Run(w, actions).db, m)
    ensures (exists i :: Orphan(Raced(w, actions, m).db, i)) <==> HasActive(Run(w, actions).db, m)
  {
    NothingToClose(w.db, m, now);
    RunKeeps(w, actions);
    DeleteRowOrphans(Run(w, actions).db, m);
  }

  // ----- what has to happen in between -----

  /** The action commits an open for `m`. */
  ghost predicate OpensFor(w: World, a: Action, m: Id) {
    && a.Resume? && TaskOf(w, a.t).Opening? && TaskOf(w, a.t).m == m && a.answer.newId !in w.db.incidents
    && OpenMonitorIncident(w.db, m, a.answer.newId).Some?
  }

  ghost predicate NeverOpens(w: World, actions: seq<Action>, m: Id)
    decreases |actions|
  {
    actions == [] || (!OpensFor(w, actions[0], m) && NeverOpens(Next(w, actions[0]), actions[1..], m))
  }

  /** Only an open brings in a row that names a monitor. */
  lemma RequestsAddNone(db: Db, task: Task, clock: Time, answer: Answer)
    requires task.Acking? || task.Moving? || task.Grading?
    ensures Commits(db, task, clock, answer).incidents.Keys == db.incidents.Keys
  {
  }

  lemma CommitsAdd(db: Db, task: Task, clock: Time, answer: Answer, i: Id)
    requires i in Commits(db, task, clock, answer).incidents && i !in db.incidents
    ensures task.Opening? && i == answer.newId && OpenMonitorIncident(db, task.m, i).Some?
    ensures Commits(db, task, clock, answer).incidents[i].monitorId == Some(task.m)
  {
    if task.Acking? || task.Moving? || task.Grading? {
      RequestsAddNone(db, task, clock, answer);
    }
  }

  lemma WritesAdd(w: World, a: Action, i: Id)
    requires i in Writes(w, a).incidents && i !in w.db.incidents
    ensures Writes(w, a).incidents[i].monitorId.None?
  {
  }

  lemma NothingReopens(before: Db, after: Db, m: Id)
    requires Evolves(before, after)
    ensures forall i :: i in before.incidents && after.incidents[i].ActiveFor(m) ==> before.incidents[i].ActiveFor(m)
  {
    forall i | i in before.incidents && after.incidents[i].ActiveFor(m) ensures before.incidents[i].ActiveFor(m) {
      assert IncidentEvolves(before, after, i);
    }
  }

  lemma OnlyOpenActivates(w: World, a: Action, m: Id)
    requires Inv(w) && !HasActive(w.db, m) && HasActive(Next(w, a).db, m)
    ensures OpensFor(w, a, m)
  {
    NextKeeps(w, a);
    var after := Next(w, a).db;
    NothingReopens(w.db, after, m);
    var i :| i in after.incidents && after.incidents[i].ActiveFor(m);
    if a.Resume? {
      CommitsAdd(w.db, TaskOf(w, a.t), w.clock, a.answer, i);
    } else {
      OtherTasksOk(w, a);
      WritesAdd(w, a, i);
    }
  }

  lemma {:induction false} NeverOpened(w: World, actions: seq<Action>, m: Id)
    requires Inv(w) && !HasActive(w.db, m) && NeverOpens(w, actions, m)
    ensures !HasActive(Run(w, actions).db, m)
    decreases |actions|
  {
    if actions != [] {
      NextKeeps(w, actions[0]);
      StaysInactive(w, actions[0], m);
      NeverOpened(Next(w, actions[0]), actions[1..], m);
    }
  }

  lemma StaysInactive(w: World, a: Action, m: Id)
    requires Inv(w) && !HasActive(w.db, m) && !OpensFor(w, a, m)
    ensures !HasActive(Next(w, a).db, m)
  {
    if HasActive(Next(w, a).db, m) {
      OnlyOpenActivates(w, a, m);
    }
  }

  /** So if no worker opens an incident for the monitor in between, the deletion is as good as one step. */
  lemma UnracedKeeps(w: World, actions: seq<Action>, m: Id)
    requires Inv(w) && !HasActive(w.db, m) && NeverOpens(w, actions, m)
    ensures DbInv(Raced(w, actions, m).db) && forall i :: !Orphan(Raced(w, actions, m).db, i)
  {
    NeverOpened(w, actions, m);
    RacedKeepsIff(w, actions, m, 0);
  }

  // ----- an orphan stays -----

  /** An operator's status change of this incident. */
  predicate MovesIt(w: World, a: Action, i: Id) {
    a.Resume? && TaskOf(w, a.t).Moving? && TaskOf(w, a.t).i == i
  }

  lemma RequestsKeepOrphan(db: Db, task: Task, clock: Time, answer: Answer, i: Id)
    requires Orphan(db, i) && (task.Acking? || task.Grading? || (task.Moving? && task.i != i))
    ensures Orphan(Commits(db, task, clock, answer), i)
  {
  }

  lemma CommitsKeepOrphan(db: Db, task: Task, clock: Time, answer: Answer, i: Id)
    requires Orphan(db, i) && !(task.Moving? && task.i == i)
    ensures Orphan(Commits(db, task, clock, answer), i)
  {
    if task.Acking? || task.Grading? || task.Moving? {
      RequestsKeepOrphan(db, task, clock, answer, i);
    }
  }

  lemma WritesKeepOrphan(w: World, a: Action, i: Id)
    requires Orphan(w.db, i)
    ensures Orphan(Writes(w, a), i)
  {
  }

  lemma OrphanStays(w: World, a: Action, i: Id)
    requires Orphan(w.db, i) && !MovesIt(w, a, i)
    ensures Orphan(Next(w, a).db, i)
  {
    if a.Resume? {
      CommitsKeepOrphan(w.db, TaskOf(w, a.t), w.clock, a.answer, i);
    } else {
      WritesKeepOrphan(w, a, i);
    }
  }

  ghost predicate NobodyMoves(w: World, actions: seq<Action>, i: Id)
    decreases |actions|
  {
    actions == [] || (!MovesIt(w, actions[0], i) && NobodyMoves(Next(w, actions[0]), actions[1..], i))
  }

  /** No recovery, deletion or cutover ever closes it: only an operator who changes its status can. */
  lemma {:induction false} OnlyOperatorsClose(w: World, actions: seq<Action>, i: Id)
    requires Orphan(w.db, i) && NobodyMoves(w, actions, i)
    ensures Orphan(Run(w, actions).db, i)
    decreases |actions|
  {
    if actions != [] {
      OrphanStays(w, actions[0], i);
      OnlyOperatorsClose(Next(w, actions[0]), actions[1..], i);
    }
  }

  // ----- it happens -----

  /** The failure is recorded, and the worker is about to open. */
  function Poised(): World { One(FAILED, map[], map[], map[], map[0 := Opening(0, 0)], {}) }

  lemma PoisedReached()
    ensures Run(EMPTY, Opens() + [STEP]) == Poised()
  {
    FailingReached();
    RunConcat(EMPTY, Opens(), [STEP]);
    RunCons(Failing(), STEP, []);
    assert [STEP] + [] == [STEP];
  }

  lemma PoisedOpens()
    ensures !HasActive(Poised().db, 0) && HasActive(Run(Poised(), [STEP]).db, 0)
  {
    OpenCommits();
    RunCons(Poised(), STEP, []);
    assert [STEP] + [] == [STEP];
    var after := Run(Poised(), [STEP]).db;
    assert after.incidents == map[0 := OPEN] && OPEN.ActiveFor(0);
  }

  /** The deletion finds nothing open, the worker opens, and the row goes: an orphan. */
  lemma OrphanHappens()
    ensures var w := Run(EMPTY, Opens() + [STEP]);
            && CloseForDeletion(w.db, 0, 0) == w.db
            && exists i :: Orphan(Raced(w, [STEP], 0).db, i)
  {
    PoisedReached();
    EmptyIsInv();
    RunKeeps(EMPTY, Opens() + [STEP]);
    PoisedOpens();
    RacedKeepsIff(Poised(), [STEP], 0, 0);
  }
}
