/**
 * Workers and operators over one set of tables.
 *
 * A task is a worker inside `applyOutcome`, or an operator's request; it holds whatever it read
 * earlier. An action is one committed transaction, one read, a clock tick, or a crash that
 * forgets a task. Every action is defined in every world, so a run is any sequence of them.
 */
module Protocol {
  import opened Prelude
  import opened StatusController
  import opened Incidents
  import opened IncidentLaws
  import opened IncidentTransactions

  type TaskId = nat

  datatype Task =
    | Idle
      // a check: the row as it was read, then the verdict with the clock reading it is judged at
    | Probing(m: Id, seen: Monitor)
    | Judged(m: Id, seen: Monitor, verdict: Verdict, degradedResolves: bool, now: Time, lines: nat)
      // the consequences of an applied check
    | Opening(m: Id, lines: nat)
    | Noting(i: Id, lines: nat)
    | Seeking(m: Id)
    | Deciding(i: Id, shadow: bool)
    | Holding(i: Id)
    | Claiming(i: Id)
    | Resolving(m: Id)
      // an operator's request between its read and its write
    | Acking(i: Id, row: Incident, user: UserId)
    | Moving(i: Id, row: Incident, to: IncidentStatus, user: UserId)
    | Grading(i: Id, row: Incident, severity: Severity, user: UserId)

  /**
   * `asked` are the incidents the hooks were asked about, whose hold may be released later;
   * `resetAt` is when each monitor was last paused or resumed. Neither is read by a step that
   * writes the tables, except that only an asked incident has a hold to release.
   */
  datatype World = World(db: Db, tasks: map<TaskId, Task>, clock: Time, asked: set<Id>, resetAt: map<Id, Time>)

  const EMPTY := World(Db(map[], map[], map[], map[]), map[], 0, {}, map[])

  /** What the code this model does not contain answers: a fresh id, the hooks' answers. */
  datatype Answer = Answer(newId: Id, held: bool, pagedElsewhere: bool)

  datatype Action =
    | Tick(ms: nat)
    | AddMonitor(m: Id, windowSeconds: nat, shadowBridge: Option<Id>)
    | StartCheck(t: TaskId, m: Id)
    | Judge(t: TaskId, verdict: Verdict, degradedResolves: bool, lines: nat)
    | Resume(t: TaskId, answer: Answer)
    | Crash(t: TaskId)
    | ReleaseHold(i: Id, pagedElsewhere: bool)
    | SetPaused(m: Id, paused: bool)
    | Delete(m: Id)
    | EndBridge(bridge: Id, abandon: bool)
    | Report(i: Id, severity: Severity)
    | StartAck(t: TaskId, i: Id, user: UserId)
    | StartMove(t: TaskId, i: Id, to: IncidentStatus, user: UserId)
    | StartGrade(t: TaskId, i: Id, severity: Severity, user: UserId)
    | Post(i: Id, internal: bool, user: UserId)

  function TaskOf(w: World, t: TaskId): Task {
    if t in w.tasks then w.tasks[t] else Idle
  }

  function SetTask(w: World, t: TaskId, task: Task): World {
    w.(tasks := w.tasks[t := task])
  }

  /** The tables after a transaction that may refuse. */
  function Kept(db: Db, r: Result<Db, Refusal>): Db {
    if r.Ok? then r.value else db
  }

  /** What the next transaction of a task commits. */
  function Commits(db: Db, task: Task, clock: Time, answer: Answer): Db {
    match task
    case Judged(m, seen, verdict, degradedResolves, now, _) =>
      RecordCheckOutcome(db, m, seen, verdict, degradedResolves, now)
    case Opening(m, _) =>
      if answer.newId in db.incidents then db
      else
        var made := OpenMonitorIncident(db, m, answer.newId);
        if made.Some? then made.value else db
    case Noting(i, lines) => if lines == 0 then db else RecordSystemEvent(db, i, DockerLine)
    case Deciding(i, shadow) => if shadow then RecordSystemEvent(db, i, ShadowDecision) else db
    case Holding(i) => RecordSystemEvent(db, i, HoldDecision)
    case Claiming(i) => ClaimNotification(db, i, clock, answer.pagedElsewhere)
    case Resolving(m) => ResolveMonitorIncidents(db, m, clock)
    case Acking(i, row, user) => Kept(db, Acknowledge(db, i, row, user, clock))
    case Moving(i, row, to, user) => Kept(db, ChangeStatus(db, i, row, to, user, clock))
    case Grading(i, row, severity, user) => Kept(db, ChangeSeverity(db, i, row, severity, user))
    case _ => db
  }

  /** Where a program stands after that transaction. */
  ghost function Continues(db: Db, task: Task, answer: Answer): Task {
    match task
    case Probing(_, _) => task
    case Judged(m, seen, verdict, degradedResolves, now, lines) =>
      var told := Conclude(seen, verdict, degradedResolves, now).1;
      if !WriteMatches(db, m, seen) then Idle
      else if told.openIncident then Opening(m, lines)
      else if told.resolveIncidents then Resolving(m)
      else Idle
    case Opening(m, lines) =>
      if answer.newId in db.incidents then task
      else if OpenMonitorIncident(db, m, answer.newId).Some? then Noting(answer.newId, lines)
      else Seeking(m)
    case Noting(i, lines) =>
      if lines == 0 then Deciding(i, i in db.incidents && db.incidents[i].shadow) else Noting(i, lines - 1)
    case Seeking(m) =>
      var found := FindUnhandled(db, m);
      if found.None? then Idle else Deciding(found.value, db.incidents[found.value].shadow)
    case Deciding(i, shadow) => if shadow then Idle else if answer.held then Holding(i) else Claiming(i)
    case _ => Idle
  }

  /** The hooks are asked about a loud incident before it is held or paged for. */
  function Asks(task: Task): set<Id> {
    if task.Deciding? && !task.shadow then {task.i} else {}
  }

  /** One transaction of one task's program. */
  ghost function Advance(w: World, t: TaskId, answer: Answer): World {
    var task := TaskOf(w, t);
    World(Commits(w.db, task, w.clock, answer), w.tasks[t := Continues(w.db, task, answer)],
          w.clock, w.asked + Asks(task), w.resetAt)
  }

  /** A request starts by reading the row it names. */
  function Reads(w: World, a: Action): Task {
    match a
    case StartCheck(t, m) => if m in w.db.monitors then Probing(m, w.db.monitors[m]) else Idle
    case StartAck(t, i, user) => if i in w.db.incidents then Acking(i, w.db.incidents[i], user) else Idle
    case StartMove(t, i, to, user) => if i in w.db.incidents then Moving(i, w.db.incidents[i], to, user) else Idle
    case StartGrade(t, i, severity, user) =>
      if i in w.db.incidents then Grading(i, w.db.incidents[i], severity, user) else Idle
    case _ => Idle
  }

  /** What an action that is not a task's commits. */
  function Writes(w: World, a: Action): Db {
    match a
    case AddMonitor(m, windowSeconds, shadowBridge) =>
      if m in w.db.monitors then w.db
      else SetMonitor(w.db, m, Monitor(windowSeconds, false, IsUnknown, None, shadowBridge))
    case ReleaseHold(i, pagedElsewhere) =>
      if i in w.asked then ClaimNotification(w.db, i, w.clock, pagedElsewhere) else w.db
    case SetPaused(m, paused) => Kept(w.db, SetMonitorPaused(w.db, m, paused))
    case Delete(m) => Kept(w.db, DeleteMonitor(w.db, m, w.clock))
    case EndBridge(bridge, abandon) => EndShadow(w.db, bridge, abandon, w.clock)
    case Report(i, severity) => if i in w.db.incidents then w.db else CreateIncident(w.db, i, severity)
    case Post(i, internal, user) => Kept(w.db, PostUpdate(w.db, i, internal, user))
    case _ => w.db
  }

  /** The monitors an action starts from a clean slate. */
  function Resets(w: World, a: Action): set<Id> {
    match a
    case AddMonitor(m, _, _) => if m in w.db.monitors then {} else {m}
    case SetPaused(m, _) => if m in w.db.monitors then {m} else {}
    case EndBridge(bridge, abandon) => if abandon then Fleet(w.db, bridge) else {}
    case _ => {}
  }

  ghost function Next(w: World, a: Action): World {
    match a
    case Tick(ms) => w.(clock := w.clock + ms)
    case Judge(t, verdict, degradedResolves, lines) =>
      var task := TaskOf(w, t);
      if task.Probing? then SetTask(w, t, Judged(task.m, task.seen, verdict, degradedResolves, w.clock, lines)) else w
    case Resume(t, answer) => Advance(w, t, answer)
    case Crash(t) => SetTask(w, t, Idle)
    case StartCheck(t, _) => if TaskOf(w, t) == Idle then SetTask(w, t, Reads(w, a)) else w
    case StartAck(t, _, _) => if TaskOf(w, t) == Idle then SetTask(w, t, Reads(w, a)) else w
    case StartMove(t, _, _, _) => if TaskOf(w, t) == Idle then SetTask(w, t, Reads(w, a)) else w
    case StartGrade(t, _, _, _) => if TaskOf(w, t) == Idle then SetTask(w, t, Reads(w, a)) else w
    case _ =>
      w.(db := Writes(w, a),
         resetAt := map m | m in w.resetAt.Keys + Resets(w, a) :: if m in Resets(w, a) then w.clock else w.resetAt[m])
  }

  ghost function Run(w: World, actions: seq<Action>): World
    decreases |actions|
  {
    if actions == [] then w else Run(Next(w, actions[0]), actions[1..])
  }

  // ----- what every world of every run satisfies -----

  ghost predicate TaskOk(db: Db, task: Task) {
    match task
    case Noting(i, _) => i in db.incidents && db.incidents[i].source.Automatic?
    case Deciding(i, shadow) =>
      i in db.incidents && db.incidents[i].source.Automatic? && db.incidents[i].shadow == shadow
    case Holding(i) => Pageable(db, i)
    case Claiming(i) => Pageable(db, i)
    case _ => true
  }

  ghost predicate TasksOk(w: World) {
    && (forall t :: t in w.tasks ==> TaskOk(w.db, w.tasks[t]))
    && (forall i :: i in w.asked ==> Pageable(w.db, i))
  }

  ghost predicate Inv(w: World) {
    DbInv(w.db) && TasksOk(w)
  }

  lemma TasksSurvive(before: Db, after: Db, tasks: map<TaskId, Task>, asked: set<Id>)
    requires Evolves(before, after)
    requires forall t :: t in tasks ==> TaskOk(before, tasks[t])
    requires forall i :: i in asked ==> Pageable(before, i)
    ensures forall t :: t in tasks ==> TaskOk(after, tasks[t])
    ensures forall i :: i in asked ==> Pageable(after, i)
  {
    forall i | i in before.incidents
      ensures i in after.incidents && after.incidents[i].source == before.incidents[i].source
      ensures after.incidents[i].shadow == before.incidents[i].shadow
    {
      assert IncidentEvolves(before, after, i);
    }
  }

  /** A request keeps the tables' rules, however stale the row it read. */
  lemma RequestsKeep(db: Db, task: Task, clock: Time, answer: Answer)
    requires DbInv(db) && (task.Acking? || task.Moving? || task.Grading?)
    ensures DbInv(Commits(db, task, clock, answer)) && Evolves(db, Commits(db, task, clock, answer))
  {
    EvolvesSelf(db);
    match task
    case Acking(i, row, user) => AcknowledgeKeeps(db, i, row, user, clock);
    case Moving(i, row, to, user) => ChangeStatusKeeps(db, i, row, to, user, clock);
    case Grading(i, row, severity, user) => ChangeSeverityKeeps(db, i, row, severity, user);
  }

  /** Handling an opened incident keeps them. */
  lemma HandlingKeeps(db: Db, task: Task, clock: Time, answer: Answer)
    requires DbInv(db) && TaskOk(db, task) && (task.Noting? || task.Deciding? || task.Holding?)
    ensures DbInv(Commits(db, task, clock, answer)) && Evolves(db, Commits(db, task, clock, answer))
  {
    EvolvesSelf(db);
    match task
    case Noting(i, _) => SystemEventKeeps(db, i, DockerLine);
    case Deciding(i, _) => SystemEventKeeps(db, i, ShadowDecision);
    case Holding(i) => SystemEventKeeps(db, i, HoldDecision);
  }

  /** Every transaction of every program keeps the tables' rules, however stale what it read. */
  lemma CommitsKeep(db: Db, task: Task, clock: Time, answer: Answer)
    requires DbInv(db) && TaskOk(db, task)
    ensures DbInv(Commits(db, task, clock, answer)) && Evolves(db, Commits(db, task, clock, answer))
  {
    EvolvesSelf(db);
    if task.Acking? || task.Moving? || task.Grading? {
      RequestsKeep(db, task, clock, answer);
    } else if task.Noting? || task.Deciding? || task.Holding? {
      HandlingKeeps(db, task, clock, answer);
    } else if task.Claiming? {
      ClaimKeeps(db, task.i, clock, answer.pagedElsewhere);
    } else if task.Judged? {
      RecordKeeps(db, task.m, task.seen, task.verdict, task.degradedResolves, task.now);
    } else if task.Opening? {
      if answer.newId !in db.incidents { OpenKeeps(db, task.m, answer.newId); }
    } else if task.Resolving? {
      ResolveKeeps(db, task.m, clock);
    }
  }

  lemma ContinuesOk(db: Db, task: Task, clock: Time, answer: Answer)
    requires DbInv(db) && TaskOk(db, task)
    ensures TaskOk(Commits(db, task, clock, answer), Continues(db, task, answer))
    ensures forall i :: i in Asks(task) ==> Pageable(db, i)
  {
    match task
    case Noting(i, lines) => assert RecordSystemEvent(db, i, DockerLine).incidents == db.incidents;
    case _ =>
  }

  lemma ClosingWritesKeep(w: World, a: Action)
    requires Inv(w) && (a.Delete? || a.EndBridge?)
    ensures DbInv(Writes(w, a)) && Evolves(w.db, Writes(w, a))
  {
    EvolvesSelf(w.db);
    match a
    case Delete(m) => DeleteKeeps(w.db, m, w.clock);
    case EndBridge(bridge, abandon) => EndShadowKeeps(w.db, bridge, abandon, w.clock);
  }

  lemma MonitorWritesKeep(w: World, a: Action)
    requires Inv(w) && (a.AddMonitor? || a.SetPaused?)
    ensures DbInv(Writes(w, a)) && Evolves(w.db, Writes(w, a))
  {
    EvolvesSelf(w.db);
    match a
    case AddMonitor(m, windowSeconds, shadowBridge) =>
      if m !in w.db.monitors {
        AddMonitorKeeps(w.db, m, Monitor(windowSeconds, false, IsUnknown, None, shadowBridge));
      }
    case SetPaused(m, paused) => PauseKeeps(w.db, m, paused);
  }

  lemma WritesKeep(w: World, a: Action)
    requires Inv(w)
    ensures DbInv(Writes(w, a)) && Evolves(w.db, Writes(w, a))
  {
    EvolvesSelf(w.db);
    if a.Delete? || a.EndBridge? {
      ClosingWritesKeep(w, a);
    } else if a.AddMonitor? || a.SetPaused? {
      MonitorWritesKeep(w, a);
    } else {
      IncidentWritesKeep(w, a);
    }
  }

  lemma ReleaseKeeps(w: World, a: Action)
    requires Inv(w) && a.ReleaseHold?
    ensures DbInv(Writes(w, a)) && Evolves(w.db, Writes(w, a))
  {
    EvolvesSelf(w.db);
    if a.i in w.asked {
      ClaimKeeps(w.db, a.i, w.clock, a.pagedElsewhere);
    }
  }

  lemma IncidentWritesKeep(w: World, a: Action)
    requires Inv(w) && !a.Delete? && !a.EndBridge? && !a.AddMonitor? && !a.SetPaused?
    ensures DbInv(Writes(w, a)) && Evolves(w.db, Writes(w, a))
  {
    EvolvesSelf(w.db);
    if a.ReleaseHold? {
      ReleaseKeeps(w, a);
    } else if a.Report? {
      if a.i !in w.db.incidents { CreateKeeps(w.db, a.i, a.severity); }
    } else if a.Post? {
      PostUpdateKeeps(w.db, a.i, a.internal, a.user);
    }
  }

  lemma AddMonitorKeeps(db: Db, m: Id, row: Monitor)
    requires DbInv(db) && m !in db.monitors && !row.status.IsDown?
    ensures DbInv(SetMonitor(db, m, row)) && Evolves(db, SetMonitor(db, m, row))
  {
    var after := SetMonitor(db, m, row);
    assert forall i :: IsOpenedFor(after, i) <==> IsOpenedFor(db, i);
    assert forall i :: Lines(after, i) == Lines(db, i);
  }

  lemma AdvanceKeeps(w: World, t: TaskId, answer: Answer)
    requires Inv(w)
    ensures Inv(Advance(w, t, answer)) && Evolves(w.db, Advance(w, t, answer).db)
  {
    var task := TaskOf(w, t);
    assert TaskOk(w.db, task);
    CommitsKeep(w.db, task, w.clock, answer);
    ContinuesOk(w.db, task, w.clock, answer);
    TasksSurvive(w.db, Commits(w.db, task, w.clock, answer), w.tasks, w.asked + Asks(task));
  }

  /** An action outside a task's program moves tasks only between states that assume nothing. */
  lemma OtherTasksOk(w: World, a: Action)
    requires TasksOk(w) && !a.Resume?
    ensures Next(w, a).db == Writes(w, a) && Next(w, a).asked == w.asked
    ensures forall t :: t in Next(w, a).tasks ==> TaskOk(w.db, Next(w, a).tasks[t])
  {
  }

  /** Any single action keeps the invariant, and changes each incident only as `Evolves` allows. */
  lemma NextKeeps(w: World, a: Action)
    requires Inv(w)
    ensures Inv(Next(w, a)) && Evolves(w.db, Next(w, a).db)
  {
    if a.Resume? {
      AdvanceKeeps(w, a.t, a.answer);
    } else {
      WritesKeep(w, a);
      OtherTasksOk(w, a);
      TasksSurvive(w.db, Writes(w, a), Next(w, a).tasks, w.asked);
    }
  }

  /** Every world any interleaving reaches satisfies the invariant. */
  lemma {:induction false} RunKeeps(w: World, actions: seq<Action>)
    requires Inv(w)
    ensures Inv(Run(w, actions))
    decreases |actions|
  {
    if actions != [] {
      NextKeeps(w, actions[0]);
      RunKeeps(Next(w, actions[0]), actions[1..]);
    }
  }

  lemma EmptyIsInv()
    ensures Inv(EMPTY)
  {
  }

  lemma RunCons(w: World, a: Action, rest: seq<Action>)
    ensures Run(w, [a] + rest) == Run(Next(w, a), rest)
  {
    assert ([a] + rest)[1..] == rest;
  }

  lemma {:induction false} RunConcat(w: World, xs: seq<Action>, ys: seq<Action>)
    ensures Run(w, xs + ys) == Run(Run(w, xs), ys)
    decreases |xs|
  {
    if xs == [] {
      assert xs + ys == ys;
    } else {
      assert (xs + ys)[1..] == xs[1..] + ys;
      RunConcat(Next(w, xs[0]), xs[1..], ys);
    }
  }

  lemma RunThree(w: World, a: Action, b: Action, c: Action)
    ensures Run(w, [a, b, c]) == Next(Next(Next(w, a), b), c)
  {
    assert [a, b, c] == [a] + ([b] + ([c] + []));
    RunCons(w, a, [b] + ([c] + []));
    RunCons(Next(w, a), b, [c] + []);
    RunCons(Next(Next(w, a), b), c, []);
  }
}
