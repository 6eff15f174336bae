/**
 * The tables of one organisation and the transactions that change them.
 *
 * Each function is one committed transaction of `incidents/service.ts`, or of the monitor
 * transactions that touch incidents. A function that models a read-then-write transaction
 * takes the row it read earlier as `seen`, because another transaction may commit between
 * the read and the write.
 */
module Incidents {
  import opened Prelude
  import opened StatusController

  type Id = nat
  type UserId = nat

  datatype IncidentStatus = Investigating | Identified | Monitoring | Resolved

  datatype Severity = Critical | Major | Minor

  datatype Source = Manual | Automatic

  datatype Monitor = Monitor(windowSeconds: nat, paused: bool, status: MonitorStatus,
                             firstFailureAt: Option<Time>, shadowBridge: Option<Id>)

  datatype Incident = Incident(source: Source, monitorId: Option<Id>, status: IncidentStatus, severity: Severity,
                               resolvedAt: Option<Time>, notifiedAt: Option<Time>, revision: nat, shadow: bool,
                               acknowledgedAt: Option<Time>, acknowledgedBy: Option<UserId>)
  {
    predicate Active() { status != Resolved }

    /** The rows `incidents_one_active_per_monitor` indexes, for one monitor. */
    predicate ActiveFor(m: Id) { source.Automatic? && Active() && monitorId == Some(m) }
  }

  /** Which line of code wrote a timeline entry of type `system`. */
  datatype Note = Acknowledged | DockerLine | ShadowDecision | HoldDecision | MonitorDeleted | ShadowEnded

  datatype Event =
    | Created
    | StatusChange(to: IncidentStatus, author: Option<UserId>)
    | SeverityChange(severity: Severity, operator: UserId)
    | Update(internal: bool, operator: UserId)
    | System(note: Note)

  /** The cause key of a dispatch intent; an update is keyed by the timeline entry it wrote. */
  datatype Cause = OpenedCause(incident: Id) | ResolvedCause(incident: Id) | UpdatedCause(incident: Id, entry: nat)

  /** `responders` says whether the payload carries the responder email. */
  datatype Intent = Intent(responders: bool)

  datatype Db = Db(monitors: map<Id, Monitor>, incidents: map<Id, Incident>,
                   timeline: map<Id, seq<Event>>, intents: map<Cause, Intent>)

  datatype Refusal = NotFound | Conflict

  predicate CanTransition(from: IncidentStatus, to: IncidentStatus) {
    from != Resolved && from != to
  }

  function Lines(db: Db, i: Id): seq<Event> {
    if i in db.timeline then db.timeline[i] else []
  }

  // ----- statements -----

  /** Insert, do nothing on a conflicting cause key. */
  function RecordIntent(db: Db, cause: Cause, intent: Intent): Db {
    if cause in db.intents then db else db.(intents := db.intents[cause := intent])
  }

  function Append(db: Db, i: Id, e: Event): Db {
    db.(timeline := db.timeline[i := Lines(db, i) + [e]])
  }

  function SetIncident(db: Db, i: Id, row: Incident): Db {
    db.(incidents := db.incidents[i := row])
  }

  function SetMonitor(db: Db, m: Id, row: Monitor): Db {
    db.(monitors := db.monitors[m := row])
  }

  // ----- transactions on incidents -----

  function CreateIncident(db: Db, i: Id, severity: Severity): Db
    requires i !in db.incidents
  {
    var row := Incident(Manual, None, Investigating, severity, None, None, 0, false, None, None);
    RecordIntent(Append(SetIncident(db, i, row), i, Created), OpenedCause(i), Intent(false))
  }

  /** An open automatic incident already exists for this monitor. */
  predicate HasActive(db: Db, m: Id) {
    exists i :: i in db.incidents && db.incidents[i].ActiveFor(m)
  }

  /** `None` when the locked row refuses, or when the unique index does. */
  function OpenMonitorIncident(db: Db, m: Id, i: Id): Option<Db>
    requires i !in db.incidents
  {
    if m !in db.monitors || db.monitors[m].status.IsUp? || db.monitors[m].paused || HasActive(db, m) then None
    else
      var row := Incident(Automatic, Some(m), Investigating, Critical, None, None, 0,
                          db.monitors[m].shadowBridge.Some?, None, None);
      Some(Append(SetIncident(db, i, row), i, Created))
  }

  /** The one statement whose predicate spends the right to page, with the intent it owes. */
  function ClaimNotification(db: Db, i: Id, now: Time, pagedElsewhere: bool): Db {
    if i in db.incidents && db.incidents[i].notifiedAt.None? then
      RecordIntent(SetIncident(db, i, db.incidents[i].(notifiedAt := Some(now))),
                   OpenedCause(i), Intent(!pagedElsewhere))
    else db
  }

  function RecordSystemEvent(db: Db, i: Id, note: Note): Db {
    if i in db.incidents then Append(db, i, System(note)) else db
  }

  /** A row the repair query returns: open, unnotified, and without any system entry. */
  predicate Unhandled(db: Db, m: Id, i: Id) {
    && i in db.incidents && db.incidents[i].ActiveFor(m)
    && db.incidents[i].notifiedAt.None?
    && forall e :: e in Lines(db, i) ==> !e.System?
  }

  ghost function FindUnhandled(db: Db, m: Id): Option<Id> {
    if exists i :: Unhandled(db, m, i) then
      var i :| Unhandled(db, m, i); Some(i)
    else None
  }

  function Acknowledge(db: Db, i: Id, seen: Incident, user: UserId, now: Time): Result<Db, Refusal> {
    if seen.status == Resolved then Err(Conflict)
    else if seen.acknowledgedAt.Some? then Ok(db)
    else if i !in db.incidents then Err(NotFound)
    else if db.incidents[i].acknowledgedAt.None? && db.incidents[i].status != Resolved then
      var row := db.incidents[i].(acknowledgedAt := Some(now), acknowledgedBy := Some(user));
      Ok(Append(SetIncident(db, i, row), i, System(Acknowledged)))
    else if db.incidents[i].status == Resolved then Err(Conflict)
    else Ok(db)
  }

  /** The payload of a status change, and the key it commits under. */
  function StatusIntent(db: Db, i: Id, updated: Incident): (Cause, Intent) {
    if updated.status == Resolved then
      var monitorExists := updated.monitorId.Some? && updated.monitorId.value in db.monitors;
      (ResolvedCause(i), Intent(monitorExists && updated.notifiedAt.Some?))
    else (UpdatedCause(i, |Lines(db, i)|), Intent(false))
  }

  function Moved(was: Incident, to: IncidentStatus, now: Time): Incident {
    was.(status := to, resolvedAt := if to == Resolved then Some(now) else None, revision := was.revision + 1)
  }

  function WriteStatus(db: Db, i: Id, to: IncidentStatus, user: UserId, now: Time): Db
    requires i in db.incidents
  {
    var row := Moved(db.incidents[i], to, now);
    var (cause, intent) := StatusIntent(db, i, row);
    RecordIntent(Append(SetIncident(db, i, row), i, StatusChange(to, Some(user))), cause, intent)
  }

  function ChangeStatus(db: Db, i: Id, seen: Incident, to: IncidentStatus, user: UserId, now: Time)
    : Result<Db, Refusal>
  {
    if !CanTransition(seen.status, to) then Err(Conflict)
    else if i !in db.incidents || db.incidents[i].status != seen.status then Err(Conflict)
    else Ok(WriteStatus(db, i, to, user, now))
  }

  function ChangeSeverity(db: Db, i: Id, seen: Incident, severity: Severity, user: UserId): Result<Db, Refusal> {
    if seen.status == Resolved then Err(Conflict)
    else if seen.severity == severity then Ok(db)
    else if i !in db.incidents || db.incidents[i].status == Resolved then Err(Conflict)
    else
      var row := db.incidents[i].(severity := severity);
      Ok(RecordIntent(Append(SetIncident(db, i, row), i, SeverityChange(severity, user)),
                      UpdatedCause(i, |Lines(db, i)|), Intent(false)))
  }

  function PostUpdate(db: Db, i: Id, internal: bool, user: UserId): Result<Db, Refusal> {
    if i !in db.incidents then Err(NotFound)
    else if db.incidents[i].status == Resolved then Err(Conflict)
    else
      var posted := Append(db, i, Update(internal, user));
      Ok(if internal then posted else RecordIntent(posted, UpdatedCause(i, |Lines(db, i)|), Intent(false)))
  }

  // ----- transactions that close several incidents -----

  function Close(row: Incident, now: Time): Incident {
    row.(status := Resolved, resolvedAt := Some(now), revision := row.revision + 1)
  }

  /** The automatic incidents a recovery, a deletion or the end of a shadow fleet closes. */
  function ActiveOf(db: Db, fleet: set<Id>): set<Id> {
    set i | i in db.incidents && db.incidents[i].source.Automatic? && db.incidents[i].Active()
            && db.incidents[i].monitorId.Some? && db.incidents[i].monitorId.value in fleet
  }

  /** The incidents among `ids` that somebody was alerted about. */
  function Announced(db: Db, ids: set<Id>): set<Cause> {
    set i | i in ids && i in db.incidents && db.incidents[i].notifiedAt.Some? :: ResolvedCause(i)
  }

  function ClosedRows(rows: map<Id, Incident>, ids: set<Id>, now: Time): map<Id, Incident> {
    map i | i in rows :: if i in ids then Close(rows[i], now) else rows[i]
  }

  function AddedLines(timeline: map<Id, seq<Event>>, ids: set<Id>, line: Event): map<Id, seq<Event>> {
    map i | i in timeline.Keys + ids ::
      var lines := if i in timeline then timeline[i] else [];
      if i in ids then lines + [line] else lines
  }

  function AddedIntents(intents: map<Cause, Intent>, owed: set<Cause>): map<Cause, Intent> {
    map c | c in intents.Keys + owed :: if c in intents then intents[c] else Intent(true)
  }

  /** Close `ids` at once, with one timeline line each; `owed` are the all-clears to record. */
  function CloseAll(db: Db, ids: set<Id>, now: Time, line: Event, owed: set<Cause>): Db {
    Db(db.monitors, ClosedRows(db.incidents, ids, now), AddedLines(db.timeline, ids, line),
       AddedIntents(db.intents, owed))
  }

  /** Auto-resolve: every open automatic incident of the monitor, with the all-clears that are owed. */
  function ResolveMonitorIncidents(db: Db, m: Id, now: Time): Db {
    var open := ActiveOf(db, {m});
    CloseAll(db, open, now, StatusChange(Resolved, None), Announced(db, open))
  }

  /** The first half of a deletion: close what the monitor has open, and tell whoever was told. */
  function CloseForDeletion(db: Db, m: Id, now: Time): Db {
    var open := ActiveOf(db, {m});
    CloseAll(db, open, now, System(MonitorDeleted), Announced(db, open))
  }

  /** The second half: the row goes, and `monitor_id` is ON DELETE SET NULL. */
  function DeleteRow(db: Db, m: Id): Db {
    db.(monitors := map k | k in db.monitors && k != m :: db.monitors[k],
        incidents := map i | i in db.incidents ::
                       if db.incidents[i].monitorId == Some(m)
                       then db.incidents[i].(monitorId := None) else db.incidents[i])
  }

  /** Close what is open, then delete. */
  function DeleteMonitor(db: Db, m: Id, now: Time): Result<Db, Refusal> {
    if m !in db.monitors then Err(NotFound) else Ok(DeleteRow(CloseForDeletion(db, m, now), m))
  }

  function Fleet(db: Db, bridge: Id): set<Id> {
    set m | m in db.monitors && db.monitors[m].shadowBridge == Some(bridge)
  }

  function ShadowActiveOf(db: Db, fleet: set<Id>): set<Id> {
    set i | i in ActiveOf(db, fleet) && db.incidents[i].shadow
  }

  /** Cutover or abandon of a shadow fleet; abandon also pauses it. */
  function EndShadow(db: Db, bridge: Id, abandon: bool, now: Time): Db {
    var fleet := Fleet(db, bridge);
    var closed := CloseAll(db, ShadowActiveOf(db, fleet), now, System(ShadowEnded), {});
    closed.(monitors := map m | m in db.monitors ::
                          if m !in fleet then db.monitors[m]
                          else if abandon then CleanSlate(db.monitors[m], true).(shadowBridge := None)
                          else db.monitors[m].(shadowBridge := None))
  }

  // ----- transactions on the monitor row -----

  function CleanSlate(row: Monitor, paused: bool): Monitor {
    row.(paused := paused, status := IsUnknown, firstFailureAt := None)
  }

  function SetMonitorPaused(db: Db, m: Id, paused: bool): Result<Db, Refusal> {
    if m !in db.monitors then Err(NotFound)
    else Ok(SetMonitor(db, m, CleanSlate(db.monitors[m], paused)))
  }

  /** What a check concluded, computed from the row it read before probing. */
  function Conclude(seen: Monitor, verdict: Verdict, degradedResolves: bool, now: Time): (Option<Time>, Reconciliation) {
    var run := AdvanceFailureRun(seen.firstFailureAt, verdict, now);
    (run, Reconcile(seen.windowSeconds, verdict, run, seen.status, now, degradedResolves))
  }

  /** The predicate of the check's UPDATE: not paused, and the run it was computed from is still there. */
  predicate WriteMatches(db: Db, m: Id, seen: Monitor) {
    m in db.monitors && !db.monitors[m].paused && db.monitors[m].firstFailureAt == seen.firstFailureAt
  }

  function RecordCheckOutcome(db: Db, m: Id, seen: Monitor, verdict: Verdict, degradedResolves: bool, now: Time): Db {
    if WriteMatches(db, m, seen) then
      var (run, told) := Conclude(seen, verdict, degradedResolves, now);
      SetMonitor(db, m, db.monitors[m].(firstFailureAt := run, status := told.status))
    else db
  }
}
