/**
 * An incident nobody will ever be paged for: its worker is gone, and a system line keeps the repair
 * query from finding it.
 */
module Abandoned {
  import opened Prelude
  import opened StatusController
  import opened Incidents
  import opened IncidentLaws
  import opened IncidentTransactions
  import opened Protocol
  import opened CrashRepair
  import opened LateClaim
  import ProtocolTheorems

  /** The worker has `i` in hand. */
  predicate Handles(task: Task, i: Id) {
    (task.Noting? || task.Deciding? || task.Holding? || task.Claiming?) && task.i == i
  }

  /** Unannounced, hidden from the repair query, no hold to release, and in no worker's hands. */
  ghost predicate Forsaken(w: World, i: Id) {
    && i in w.db.incidents && w.db.incidents[i].notifiedAt.None?
    && (exists e :: e in Lines(w.db, i) && e.System?)
    && i !in w.asked
    && forall t :: t in w.tasks ==> !Handles(w.tasks[t], i)
  }

  lemma SystemLineStays(before: Db, after: Db, i: Id)
    requires i in before.incidents && IncidentEvolves(before, after, i)
    requires exists e :: e in Lines(before, i) && e.System?
    ensures exists e :: e in Lines(after, i) && e.System?
  {
    var e :| e in Lines(before, i) && e.System?;
    assert e in Lines(after, i);
  }

  /** The repair query passes it over, and an open makes another one. */
  lemma NobodyPicksItUp(db: Db, task: Task, answer: Answer, i: Id)
    requires i in db.incidents && (exists e :: e in Lines(db, i) && e.System?) && !Handles(task, i)
    ensures !Handles(Continues(db, task, answer), i) && i !in Asks(task)
  {
  }

  lemma StaysUnannounced(w: World, a: Action, i: Id)
    requires Inv(w) && Forsaken(w, i)
    ensures var db := Next(w, a).db;
            i in db.incidents && db.incidents[i].notifiedAt.None? && exists e :: e in Lines(db, i) && e.System?
  {
    NextKeeps(w, a);
    assert IncidentEvolves(w.db, Next(w, a).db, i);
    SystemLineStays(w.db, Next(w, a).db, i);
    ProtocolTheorems.OnlyClaimNotifies(w, a, i);
  }

  lemma StaysForsaken(w: World, a: Action, i: Id)
    requires Inv(w) && Forsaken(w, i)
    ensures Forsaken(Next(w, a), i)
  {
    StaysUnannounced(w, a, i);
    if a.Resume? {
      NobodyPicksItUp(w.db, TaskOf(w, a.t), a.answer, i);
    } else {
      OtherTasks(w, a, i);
    }
  }

  lemma OtherTasks(w: World, a: Action, i: Id)
    requires Forsaken(w, i) && !a.Resume?
    ensures i !in Next(w, a).asked && forall t :: t in Next(w, a).tasks ==> !Handles(Next(w, a).tasks[t], i)
  {
  }

  /** For good: whatever checks, workers and operators do from then on, nobody is ever alerted about it. */
  lemma {:induction false} NeverPaged(w: World, actions: seq<Action>, i: Id)
    requires Inv(w) && Forsaken(w, i)
    ensures i in Run(w, actions).db.incidents && Run(w, actions).db.incidents[i].notifiedAt.None?
    decreases |actions|
  {
    if actions != [] {
      NextKeeps(w, actions[0]);
      StaysForsaken(w, actions[0], i);
      NeverPaged(Next(w, actions[0]), actions[1..], i);
    }
  }

  /** The worker that opened the incident dies, and an operator acknowledges it. */
  function Abandons(): seq<Action> { [Crash(0), StartAck(1, 0, 7), Resume(1, ANSWER)] }

  lemma AcknowledgedAlone()
    ensures var w := Run(Made(), Abandons()); Forsaken(w, 0) && Hidden(w.db, 0, 0)
  {
    var a := Abandons();
    RunThree(Made(), a[0], a[1], a[2]);
    var w1 := Next(Made(), a[0]);
    assert w1 == One(FAILED, map[0 := OPEN], map[0 := [Created]], map[], map[0 := Idle], {});
    var w2 := Next(w1, a[1]);
    assert w2.db == w1.db && w2.asked == {} && TaskOf(w2, 1) == Acking(0, OPEN, 7);
    assert forall t :: t in w2.tasks ==> t == 0 || t == 1;
    AcknowledgementShows(w2);
  }

  lemma AcknowledgementShows(w: World)
    requires w.db == Made().db && w.asked == {} && TaskOf(w, 1) == Acking(0, OPEN, 7)
    requires forall t :: t in w.tasks ==> w.tasks[t].Idle? || t == 1
    ensures var after := Next(w, Resume(1, ANSWER)); Forsaken(after, 0) && Hidden(after.db, 0, 0)
  {
    var after := Next(w, Resume(1, ANSWER));
    assert Lines(after.db, 0) == [Created, System(Acknowledged)];
    assert System(Acknowledged) in Lines(after.db, 0);
  }

  /** Opened, worker crashed, acknowledged: a reachable world from which the incident is never paged for. */
  lemma ForsakenHappens()
    ensures var w := Run(EMPTY, Opens() + [STEP, STEP, STEP] + Abandons());
            Inv(w) && Forsaken(w, 0) && Hidden(w.db, 0, 0)
  {
    FailingReached();
    MadeReached();
    AcknowledgedAlone();
    RunConcat(EMPTY, Opens() + [STEP, STEP, STEP], Abandons());
    RunConcat(EMPTY, Opens(), [STEP, STEP, STEP]);
    EmptyIsInv();
    RunKeeps(EMPTY, Opens() + [STEP, STEP, STEP] + Abandons());
  }
}
