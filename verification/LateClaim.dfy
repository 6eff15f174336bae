/** A run in which subscribers hear that an outage started and never that it ended. */
module LateClaim {
  import opened Prelude
  import opened StatusController
  import opened Incidents
  import opened IncidentLaws
  import opened Protocol
  import ProtocolTheorems

  const NEW := Monitor(0, false, IsUnknown, None, None)
  const FAILED := NEW.(status := IsDown, firstFailureAt := Some(0))
  const RECOVERED := NEW.(status := IsUp)
  const OPEN := Incident(Automatic, Some(0), Investigating, Critical, None, None, 0, false, None, None)
  const ANSWER := Answer(0, false, false)
  const STEP := Resume(0, ANSWER)

  /** A world with one monitor and at most one incident. */
  function One(row: Monitor, incidents: map<Id, Incident>, timeline: map<Id, seq<Event>>, intents: map<Cause, Intent>,
               tasks: map<TaskId, Task>, asked: set<Id>): World
  {
    World(Db(map[0 := row], incidents, timeline, intents), tasks, 0, asked, map[0 := 0])
  }

  /** The worker has judged the target down. */
  function Failing(): World { One(NEW, map[], map[], map[], map[0 := Judged(0, NEW, Down, true, 0, 0)], {}) }

  /** It opened the incident and is about to decide who hears of it. */
  function Made(): World { One(FAILED, map[0 := OPEN], map[0 := [Created]], map[], map[0 := Deciding(0, false)], {}) }

  /** It decided to page, while another worker saw the target recover. */
  function Racing(): World {
    One(FAILED, map[0 := OPEN], map[0 := [Created]], map[],
        map[0 := Claiming(0), 1 := Judged(0, FAILED, Up, true, 0, 0)], {0})
  }

  function Opens(): seq<Action> { [AddMonitor(0, 0, None), StartCheck(0, 0), Judge(0, Down, true, 0)] }

  function Races(): seq<Action> { [STEP, StartCheck(1, 0), Judge(1, Up, true, 0)] }

  function Closes(): seq<Action> { [Resume(1, ANSWER), Resume(1, ANSWER), STEP] }

  lemma FailingReached()
    ensures Run(EMPTY, Opens()) == Failing()
  {
    var a := Opens();
    RunThree(EMPTY, a[0], a[1], a[2]);
    assert Next(EMPTY, a[0]) == One(NEW, map[], map[], map[], map[], {});
    var probing := map[0 := Probing(0, NEW)];
    assert Next(Next(EMPTY, a[0]), a[1]) == One(NEW, map[], map[], map[], probing, {});
    assert probing[0 := Judged(0, NEW, Down, true, 0, 0)] == map[0 := Judged(0, NEW, Down, true, 0, 0)];
  }

  lemma OpenCommits()
    ensures OpenMonitorIncident(Db(map[0 := FAILED], map[], map[], map[]), 0, 0)
         == Some(Db(map[0 := FAILED], map[0 := OPEN], map[0 := [Created]], map[]))
  {
    var db := Db(map[0 := FAILED], map[], map[], map[]);
    assert !HasActive(db, 0);
    assert Lines(SetIncident(db, 0, OPEN), 0) + [Created] == [Created];
  }

  lemma MadeReached()
    ensures Run(Failing(), [STEP, STEP, STEP]) == Made()
  {
    RunThree(Failing(), STEP, STEP, STEP);
    var w1 := Next(Failing(), STEP);
    assert w1 == One(FAILED, map[], map[], map[], map[0 := Opening(0, 0)], {});
    OpenCommits();
    var w2 := Next(w1, STEP);
    assert w2 == One(FAILED, map[0 := OPEN], map[0 := [Created]], map[], map[0 := Noting(0, 0)], {});
    assert Next(w2, STEP) == Made();
  }

  lemma RacingReached()
    ensures Run(Made(), Races()) == Racing()
  {
    var a := Races();
    RunThree(Made(), a[0], a[1], a[2]);
    var w1 := Next(Made(), a[0]);
    assert w1 == One(FAILED, map[0 := OPEN], map[0 := [Created]], map[], map[0 := Claiming(0)], {0});
    var w2 := Next(w1, a[1]);
    assert TaskOf(w2, 1) == Probing(0, FAILED);
    assert Next(w2, a[2]).tasks == Racing().tasks;
  }

  lemma QuietClose(db: Db)
    requires db == Db(map[0 := RECOVERED], map[0 := OPEN], map[0 := [Created]], map[])
    ensures var after := ResolveMonitorIncidents(db, 0, 0);
            after.incidents == map[0 := Close(OPEN, 0)] && after.intents == map[]
  {
    assert ActiveOf(db, {0}) == {0};
    assert Announced(db, {0}) == {};
  }

  lemma RecoveryRecorded()
    ensures var w := Next(Racing(), Resume(1, ANSWER));
            && TaskOf(w, 1) == Resolving(0) && TaskOf(w, 0) == Claiming(0)
            && w.db == Db(map[0 := RECOVERED], map[0 := OPEN], map[0 := [Created]], map[])
  {
  }

  /** The recovery closes the incident quietly, and the claim then announces it. */
  lemma ClosedThenAnnounced()
    ensures var db := Run(Racing(), Closes()).db;
            && 0 in db.incidents && db.incidents[0].status == Resolved && db.incidents[0].notifiedAt.Some?
            && db.incidents[0].source.Automatic? && db.intents.Keys == {OpenedCause(0)}
  {
    var a := Closes();
    RunThree(Racing(), a[0], a[1], a[2]);
    RecoveryRecorded();
    var w1 := Next(Racing(), a[0]);
    QuietClose(w1.db);
    var w2 := Next(w1, a[1]);
    assert TaskOf(w2, 0) == Claiming(0);
    ClaimCommits(w2);
  }

  lemma ClaimCommits(w: World)
    requires TaskOf(w, 0) == Claiming(0) && w.db.incidents == map[0 := Close(OPEN, 0)] && w.db.intents == map[]
    ensures var db := Next(w, STEP).db;
            && 0 in db.incidents && db.incidents[0].status == Resolved && db.incidents[0].notifiedAt.Some?
            && db.incidents[0].source.Automatic? && db.intents.Keys == {OpenedCause(0)}
  {
  }

  /** Opened, closed by a recovery, then claimed: announced, over, and with no all-clear. */
  lemma LateClaimHappens()
    ensures !ProtocolTheorems.AllClear(Run(EMPTY, Opens() + [STEP, STEP, STEP] + Races() + Closes()).db)
  {
    FailingReached();
    MadeReached();
    RacingReached();
    ClosedThenAnnounced();
    RunConcat(EMPTY, Opens() + [STEP, STEP, STEP] + Races(), Closes());
    RunConcat(EMPTY, Opens() + [STEP, STEP, STEP], Races());
    RunConcat(EMPTY, Opens(), [STEP, STEP, STEP]);
    var db := Run(Racing(), Closes()).db;
    assert ProtocolTheorems.AnnouncedAndClosed(db.incidents[0]) && ResolvedCause(0) !in db.intents;
  }
}
