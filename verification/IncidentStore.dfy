/**
 * The incident and monitor transactions, statement by statement over stored tables.
 *
 * Every method is proved to commit exactly the transaction function of the same name, so what
 * the protocol theorems say of the functions holds of the statements.
 */
module IncidentStore {
  import opened Prelude
  import opened StatusController
  import I = Incidents
  import opened Incidents
  import opened IncidentLaws
  import opened IncidentTransactions

  // ----- one more closed incident: the loop bodies of the closing transactions -----

  lemma CloseOneMoreRow(rows: map<Id, Incident>, ids: set<Id>, i: Id, now: Time)
    requires i in rows && i !in ids
    ensures ClosedRows(rows, ids + {i}, now) == ClosedRows(rows, ids, now)[i := Close(rows[i], now)]
  {
  }

  lemma AddOneMoreLine(timeline: map<Id, seq<Event>>, ids: set<Id>, i: Id, line: Event)
    requires i !in ids
    ensures var added := AddedLines(timeline, ids, line);
            var lines := if i in added then added[i] else [];
            AddedLines(timeline, ids + {i}, line) == added[i := lines + [line]]
  {
  }

  lemma AnnounceOneMore(db: Db, ids: set<Id>, i: Id)
    requires i in db.incidents && i !in ids
    ensures Announced(db, ids + {i}) ==
            Announced(db, ids) + (if db.incidents[i].notifiedAt.Some? then {ResolvedCause(i)} else {})
  {
  }

  lemma AddOneMoreIntent(intents: map<Cause, Intent>, owed: set<Cause>, c: Cause)
    ensures var added := AddedIntents(intents, owed);
            AddedIntents(intents, owed + {c}) == if c in added then added else added[c := Intent(true)]
  {
  }

  function Elements(ids: seq<Id>): set<Id> { set i | i in ids }

  /** `ids` lists every member of `of` once. */
  ghost predicate Lists(ids: seq<Id>, of: set<Id>) {
    Elements(ids) == of && forall j, k :: 0 <= j < k < |ids| ==> ids[j] != ids[k]
  }

  lemma OneMoreElement(ids: seq<Id>, of: set<Id>, n: nat)
    requires Lists(ids, of) && n < |ids|
    ensures ids[n] in of && ids[n] !in Elements(ids[..n])
    ensures Elements(ids[..n + 1]) == Elements(ids[..n]) + {ids[n]}
  {
    assert ids[n] in Elements(ids);
    assert ids[..n + 1] == ids[..n] + [ids[n]];
  }

  /** The tables part-way through a closing loop: `ids` are done. */
  ghost predicate SoFar(db: Db, incidents: map<Id, Incident>, ids: set<Id>, timeline: map<Id, seq<Event>>,
                        intents: map<Cause, Intent>, now: Time, line: Event)
  {
    && incidents == ClosedRows(db.incidents, ids, now)
    && timeline == AddedLines(db.timeline, ids, line)
    && intents == AddedIntents(db.intents, Announced(db, ids))
  }

  lemma OneMore(db: Db, done: set<Id>, i: Id, now: Time, line: Event,
                incidents: map<Id, Incident>, timeline: map<Id, seq<Event>>, intents: map<Cause, Intent>)
    requires i in db.incidents && i !in done
    requires SoFar(db, incidents, done, timeline, intents, now, line)
    ensures i in incidents && incidents[i] == db.incidents[i]
    ensures var lines := if i in timeline then timeline[i] else [];
            SoFar(db, incidents[i := Close(db.incidents[i], now)], done + {i}, timeline[i := lines + [line]],
                  if db.incidents[i].notifiedAt.Some? && ResolvedCause(i) !in intents
                  then intents[ResolvedCause(i) := Intent(true)] else intents, now, line)
  {
    CloseOneMoreRow(db.incidents, done, i, now);
    AddOneMoreLine(db.timeline, done, i, line);
    AnnounceOneMore(db, done, i);
    AddOneMoreIntent(db.intents, Announced(db, done), ResolvedCause(i));
    assert Announced(db, done) + {} == Announced(db, done);
  }

  /** The next turn of a closing loop has an open incident to close, not closed before. */
  lemma NextToClose(open: seq<Id>, db: Db, m: Id, n: nat)
    requires Lists(open, ActiveOf(db, {m})) && n < |open|
    ensures open[n] in db.incidents && db.incidents[open[n]].Active() && open[n] !in Elements(open[..n])
    ensures Elements(open[..n + 1]) == Elements(open[..n]) + {open[n]}
    ensures open[..n + 1] == open[..n] + [open[n]]
  {
    OneMoreElement(open, ActiveOf(db, {m}), n);
  }

  lemma AllClosed(db: Db, m: Id, open: seq<Id>, incidents: map<Id, Incident>, timeline: map<Id, seq<Event>>,
                  intents: map<Cause, Intent>, now: Time)
    requires Elements(open) == ActiveOf(db, {m})
    requires SoFar(db, incidents, Elements(open), timeline, intents, now, StatusChange(Resolved, None))
    ensures Db(db.monitors, incidents, timeline, intents) == I.ResolveMonitorIncidents(db, m, now)
  {
  }

  lemma NothingClosed(db: Db, now: Time, line: Event)
    ensures ClosedRows(db.incidents, {}, now) == db.incidents
    ensures AddedLines(db.timeline, {}, line) == db.timeline
    ensures AddedIntents(db.intents, Announced(db, {})) == db.intents
  {
    assert Announced(db, {}) == {};
  }

  class Store {
    var monitors: map<Id, Monitor>
    var incidents: map<Id, Incident>
    var timeline: map<Id, seq<Event>>
    var intents: map<Cause, Intent>

    function Contents(): (db: Db)
      reads this
    {
      Db(monitors, incidents, timeline, intents)
    }

    /** The rules of the tables, which every transaction finds and leaves. */
    ghost predicate Valid()
      reads this
    {
      DbInv(Contents())
    }

    constructor ()
      ensures Valid() && Contents() == Db(map[], map[], map[], map[])
    {
      monitors, incidents, timeline, intents := map[], map[], map[], map[];
    }

    // ----- statements -----

    method InsertEvent(i: Id, e: Event) returns (entry: nat)
      modifies this`timeline
      ensures Contents() == Append(old(Contents()), i, e)
      ensures entry == |Lines(old(Contents()), i)| && Lines(Contents(), i)[entry] == e
    {
      var lines := if i in timeline then timeline[i] else [];
      entry := |lines|;
      timeline := timeline[i := lines + [e]];
    }

    /** Insert on conflict do nothing; `first` says whether this call wrote the row. */
    method RecordDispatchIntent(cause: Cause, intent: Intent) returns (first: bool)
      modifies this`intents
      ensures Contents() == RecordIntent(old(Contents()), cause, intent)
      ensures first <==> cause !in old(intents)
    {
      first := cause !in intents;
      if first {
        intents := intents[cause := intent];
      }
    }

    // ----- incidents -----

    method CreateIncident(i: Id, severity: Severity)
      requires Valid() && i !in incidents
      modifies this
      ensures Contents() == I.CreateIncident(old(Contents()), i, severity)
      ensures Valid() && Evolves(old(Contents()), Contents()) && OpenedCause(i) in intents
    {
      CreateKeeps(Contents(), i, severity);
      incidents := incidents[i := Incident(Manual, None, Investigating, severity, None, None, 0, false, None, None)];
      var _ := InsertEvent(i, Created);
      var _ := RecordDispatchIntent(OpenedCause(i), Intent(false));
    }

    /** The insert is the claim; a refusal or a unique violation leaves no trace. */
    method OpenMonitorIncident(m: Id, i: Id) returns (made: bool)
      requires Valid() && i !in incidents
      modifies this
      ensures made <==> I.OpenMonitorIncident(old(Contents()), m, i).Some?
      ensures Contents() == if made then I.OpenMonitorIncident(old(Contents()), m, i).value else old(Contents())
      ensures made <==> m in monitors && !monitors[m].status.IsUp? && !monitors[m].paused
                        && forall j :: j in old(incidents) ==> !old(incidents)[j].ActiveFor(m)
      ensures Valid() && (made ==> Evolves(old(Contents()), Contents()) && Unhandled(Contents(), m, i))
    {
      OpenKeeps(Contents(), m, i);
      if m !in monitors || monitors[m].status.IsUp? {
        return false;
      }
      if monitors[m].paused {
        return false;
      }
      if exists j :: j in incidents && incidents[j].ActiveFor(m) {
        return false;
      }
      incidents := incidents[i := Incident(Automatic, Some(m), Investigating, Critical, None, None, 0,
                                           monitors[m].shadowBridge.Some?, None, None)];
      var _ := InsertEvent(i, Created);
      made := true;
    }

    /** Whoever gets `true` is the only one who ever pages for the incident, and owes the intent that was just recorded. */
    method ClaimIncidentNotification(i: Id, now: Time, pagedElsewhere: bool) returns (claimed: bool)
      requires Valid()
      modifies this
      ensures Contents() == ClaimNotification(old(Contents()), i, now, pagedElsewhere)
      ensures claimed <==> i in old(incidents) && old(incidents)[i].notifiedAt.None?
      ensures Valid() <==> !claimed || Pageable(old(Contents()), i)
      ensures Valid() ==> Evolves(old(Contents()), Contents())
      ensures Valid() && claimed ==> OpenedCause(i) !in old(intents) && OpenedCause(i) in intents
    {
      ClaimKeeps(Contents(), i, now, pagedElsewhere);
      if i !in incidents || incidents[i].notifiedAt.Some? {
        return false;
      }
      incidents := incidents[i := incidents[i].(notifiedAt := Some(now))];
      var _ := RecordDispatchIntent(OpenedCause(i), Intent(!pagedElsewhere));
      claimed := true;
    }

    method RecordSystemEvent(i: Id, note: Note)
      requires Valid()
      modifies this
      ensures Contents() == I.RecordSystemEvent(old(Contents()), i, note)
      ensures note != MonitorDeleted && note != ShadowEnded ==> Valid() && Evolves(old(Contents()), Contents())
      ensures forall m :: !Unhandled(Contents(), m, i)
    {
      if note != MonitorDeleted && note != ShadowEnded {
        SystemEventKeeps(Contents(), i, note);
      }
      assert i in incidents ==> System(note) in Lines(I.RecordSystemEvent(Contents(), i, note), i);
      if i in incidents {
        var _ := InsertEvent(i, System(note));
      }
    }

    method AcknowledgeIncident(i: Id, seen: Incident, user: UserId, now: Time) returns (r: Result<(), Refusal>)
      requires Valid()
      modifies this
      ensures r.Ok? <==> Acknowledge(old(Contents()), i, seen, user, now).Ok?
      ensures Contents() == match Acknowledge(old(Contents()), i, seen, user, now)
                            case Ok(db) => db
                            case Err(_) => old(Contents())
      ensures Valid() && Evolves(old(Contents()), Contents()) && intents == old(intents)
      ensures r.Ok? && seen.acknowledgedAt.None? ==> i in incidents && incidents[i].acknowledgedAt.Some?
      ensures Contents() != old(Contents()) ==>
                && old(incidents)[i].Active() && old(incidents)[i].acknowledgedAt.None?
                && incidents == old(incidents)[i := incidents[i]] && incidents[i].acknowledgedBy == Some(user)
    {
      AcknowledgeKeeps(Contents(), i, seen, user, now);
      EvolvesSelf(Contents());
      r := CommitAcknowledgement(i, seen, user, now);
    }

    /** The conditional update, and what the requester is told when it misses. */
    method CommitAcknowledgement(i: Id, seen: Incident, user: UserId, now: Time) returns (r: Result<(), Refusal>)
      modifies this
      ensures r.Ok? <==> Acknowledge(old(Contents()), i, seen, user, now).Ok?
      ensures Contents() == match Acknowledge(old(Contents()), i, seen, user, now)
                            case Ok(db) => db
                            case Err(_) => old(Contents())
    {
      if seen.status == Resolved {
        return Err(Conflict);
      }
      if seen.acknowledgedAt.Some? {
        return Ok(());
      }
      if i in incidents && incidents[i].acknowledgedAt.None? && incidents[i].status != Resolved {
        incidents := incidents[i := incidents[i].(acknowledgedAt := Some(now), acknowledgedBy := Some(user))];
        var _ := InsertEvent(i, System(Acknowledged));
        return Ok(());
      }
      if i !in incidents {
        return Err(NotFound);
      }
      return if incidents[i].status == Resolved then Err(Conflict) else Ok(());
    }

    method ChangeIncidentStatus(i: Id, seen: Incident, to: IncidentStatus, user: UserId, now: Time)
      returns (r: Result<(), Refusal>)
      requires Valid()
      modifies this
      ensures r.Ok? <==> i in old(incidents) && old(incidents)[i].status == seen.status && CanTransition(seen.status, to)
      ensures Contents() == match ChangeStatus(old(Contents()), i, seen, to, user, now)
                            case Ok(db) => db
                            case Err(_) => old(Contents())
      ensures Valid() && Evolves(old(Contents()), Contents())
      ensures r.Ok? ==> incidents[i].status == to && incidents[i].revision == old(incidents)[i].revision + 1
      ensures r.Ok? && to == Resolved ==> ResolvedCause(i) !in old(intents) && ResolvedCause(i) in intents
    {
      ChangeStatusKeeps(Contents(), i, seen, to, user, now);
      EvolvesSelf(Contents());
      r := CommitStatus(i, seen, to, user, now);
    }

    /** The compare-and-swap on the status that was read, with its line and its broadcast. */
    method CommitStatus(i: Id, seen: Incident, to: IncidentStatus, user: UserId, now: Time)
      returns (r: Result<(), Refusal>)
      modifies this
      ensures r.Ok? <==> i in old(incidents) && old(incidents)[i].status == seen.status && CanTransition(seen.status, to)
      ensures Contents() == match ChangeStatus(old(Contents()), i, seen, to, user, now)
                            case Ok(db) => db
                            case Err(_) => old(Contents())
    {
      if !CanTransition(seen.status, to) {
        return Err(Conflict);
      }
      if i !in incidents || incidents[i].status != seen.status {
        return Err(Conflict);
      }
      var updated := incidents[i].(status := to, resolvedAt := if to == Resolved then Some(now) else None,
                                   revision := incidents[i].revision + 1);
      incidents := incidents[i := updated];
      var entry := InsertEvent(i, StatusChange(to, Some(user)));
      var resolving := to == Resolved;
      var responders := resolving && updated.monitorId.Some? && updated.monitorId.value in monitors
                        && updated.notifiedAt.Some?;
      var _ := RecordDispatchIntent(if resolving then ResolvedCause(i) else UpdatedCause(i, entry), Intent(responders));
      return Ok(());
    }

    method ChangeIncidentSeverity(i: Id, seen: Incident, severity: Severity, user: UserId)
      returns (r: Result<(), Refusal>)
      requires Valid()
      modifies this
      ensures r.Ok? <==> ChangeSeverity(old(Contents()), i, seen, severity, user).Ok?
      ensures Contents() == match ChangeSeverity(old(Contents()), i, seen, severity, user)
                            case Ok(db) => db
                            case Err(_) => old(Contents())
      ensures Valid() && Evolves(old(Contents()), Contents())
      ensures r.Ok? && seen.severity != severity ==>
                && old(incidents)[i].Active() && incidents == old(incidents)[i := old(incidents)[i].(severity := severity)]
                && UpdatedCause(i, |Lines(old(Contents()), i)|) !in old(intents)
                && intents == old(intents)[UpdatedCause(i, |Lines(old(Contents()), i)|) := Intent(false)]
    {
      ChangeSeverityKeeps(Contents(), i, seen, severity, user);
      EvolvesSelf(Contents());
      r := CommitSeverity(i, seen, severity, user);
    }

    /** The update that never touches a resolved row, with its line and its broadcast. */
    method CommitSeverity(i: Id, seen: Incident, severity: Severity, user: UserId)
      returns (r: Result<(), Refusal>)
      modifies this
      ensures r.Ok? <==> ChangeSeverity(old(Contents()), i, seen, severity, user).Ok?
      ensures Contents() == match ChangeSeverity(old(Contents()), i, seen, severity, user)
                            case Ok(db) => db
                            case Err(_) => old(Contents())
    {
      if seen.status == Resolved {
        return Err(Conflict);
      }
      if seen.severity == severity {
        return Ok(());
      }
      if i !in incidents || incidents[i].status == Resolved {
        return Err(Conflict);
      }
      incidents := incidents[i := incidents[i].(severity := severity)];
      var entry := InsertEvent(i, SeverityChange(severity, user));
      var _ := RecordDispatchIntent(UpdatedCause(i, entry), Intent(false));
      return Ok(());
    }

    method PostIncidentUpdate(i: Id, internal: bool, user: UserId) returns (r: Result<(), Refusal>)
      requires Valid()
      modifies this
      ensures r.Ok? <==> i in old(incidents) && old(incidents)[i].Active()
      ensures Contents() == match PostUpdate(old(Contents()), i, internal, user)
                            case Ok(db) => db
                            case Err(_) => old(Contents())
      ensures Valid() && Evolves(old(Contents()), Contents()) && incidents == old(incidents)
      ensures r.Ok? && internal ==> intents == old(intents)
      ensures r.Ok? && !internal ==>
                && UpdatedCause(i, |Lines(old(Contents()), i)|) !in old(intents)
                && intents == old(intents)[UpdatedCause(i, |Lines(old(Contents()), i)|) := Intent(false)]
    {
      PostUpdateKeeps(Contents(), i, internal, user);
      EvolvesSelf(Contents());
      if i !in incidents {
        return Err(NotFound);
      }
      if incidents[i].status == Resolved {
        return Err(Conflict);
      }
      var entry := InsertEvent(i, Update(internal, user));
      if !internal {
        var _ := RecordDispatchIntent(UpdatedCause(i, entry), Intent(false));
      }
      return Ok(());
    }

    /** A closed row's line and, where somebody was alerted, its all-clear. */
    method RecordClosure(i: Id, line: Event)
      requires i in incidents
      modifies this`timeline, this`intents
      ensures timeline == old(timeline)[i := Lines(old(Contents()), i) + [line]]
      ensures intents == if old(incidents)[i].notifiedAt.Some? && ResolvedCause(i) !in old(intents)
                         then old(intents)[ResolvedCause(i) := Intent(true)] else old(intents)
    {
      var _ := InsertEvent(i, line);
      if incidents[i].notifiedAt.Some? {
        var _ := RecordDispatchIntent(ResolvedCause(i), Intent(true));
      }
    }

    /** The conditional update: `status <> 'resolved'` decides, and nothing else. */
    method CloseIncident(i: Id, now: Time) returns (updated: bool)
      requires i in incidents
      modifies this`incidents
      ensures updated <==> old(incidents)[i].Active()
      ensures incidents == if updated then old(incidents)[i := Close(old(incidents)[i], now)] else old(incidents)
    {
      updated := incidents[i].status != Resolved;
      if updated {
        incidents := incidents[i := incidents[i].(status := Resolved, resolvedAt := Some(now),
                                                  revision := incidents[i].revision + 1)];
      }
    }

    /** The open automatic incidents of the monitor, in the order the query returns them. */
    method FindActive(m: Id) returns (open: seq<Id>)
      ensures Lists(open, ActiveOf(Contents(), {m}))
    {
      open := [];
      var todo := ActiveOf(Contents(), {m});
      while todo != {}
        invariant todo <= ActiveOf(Contents(), {m}) && Lists(open, ActiveOf(Contents(), {m}) - todo)
        decreases todo
      {
        var i :| i in todo;
        assert i !in Elements(open);
        assert Elements(open + [i]) == Elements(open) + {i};
        open, todo := open + [i], todo - {i};
      }
    }

    /** One turn of the closing loop. */
    method CloseAndRecord(i: Id, now: Time, line: Event, ghost db: Db, ghost done: set<Id>) returns (updated: bool)
      requires i in db.incidents && i !in done && db.incidents[i].Active()
      requires SoFar(db, incidents, done, timeline, intents, now, line)
      modifies this`incidents, this`timeline, this`intents
      ensures updated && SoFar(db, incidents, done + {i}, timeline, intents, now, line)
    {
      OneMore(db, done, i, now, line, incidents, timeline, intents);
      updated := CloseIncident(i, now);
      if updated {
        RecordClosure(i, line);
      }
    }

    /** Closes the open rows one by one, each with its line and, where somebody was alerted, its all-clear. */
    method ResolveMonitorIncidents(m: Id, now: Time) returns (resolved: seq<Id>)
      requires Valid()
      modifies this
      ensures Contents() == I.ResolveMonitorIncidents(old(Contents()), m, now)
      ensures Lists(resolved, ActiveOf(old(Contents()), {m}))
      ensures Valid() && Evolves(old(Contents()), Contents()) && !HasActive(Contents(), m)
    {
      ResolveKeeps(Contents(), m, now);
      resolved := CloseEach(m, now);
    }

    /** The loop over the open rows. */
    method CloseEach(m: Id, now: Time) returns (resolved: seq<Id>)
      modifies this
      ensures Contents() == I.ResolveMonitorIncidents(old(Contents()), m, now)
      ensures Lists(resolved, ActiveOf(old(Contents()), {m}))
    {
      ghost var db := Contents();
      var line := StatusChange(Resolved, None);
      var open := FindActive(m);
      resolved := [];
      NothingClosed(db, now, line);
      for n := 0 to |open|
        invariant resolved == open[..n]
        invariant monitors == db.monitors
        invariant SoFar(db, incidents, Elements(open[..n]), timeline, intents, now, line)
      {
        NextToClose(open, db, m, n);
        var updated := CloseAndRecord(open[n], now, line, db, Elements(open[..n]));
        if updated {
          resolved := resolved + [open[n]];
        }
      }
      assert open[..|open|] == open;
      AllClosed(db, m, open, incidents, timeline, intents, now);
    }

    // ----- monitors -----

    /** Unpausing, like pausing, starts from a clean slate. */
    method SetMonitorPaused(m: Id, paused: bool) returns (r: Result<(), Refusal>)
      requires Valid()
      modifies this
      ensures r.Ok? <==> m in old(monitors)
      ensures Contents() == match I.SetMonitorPaused(old(Contents()), m, paused)
                            case Ok(db) => db
                            case Err(_) => old(Contents())
      ensures Valid() && Evolves(old(Contents()), Contents())
      ensures r.Ok? ==> monitors[m].paused == paused && monitors[m].status.IsUnknown? && monitors[m].firstFailureAt.None?
      ensures incidents == old(incidents) && timeline == old(timeline) && intents == old(intents)
    {
      PauseKeeps(Contents(), m, paused);
      EvolvesSelf(Contents());
      if m !in monitors {
        return Err(NotFound);
      }
      monitors := monitors[m := monitors[m].(paused := paused, status := IsUnknown, firstFailureAt := None)];
      return Ok(());
    }

    /** One update closes what is open, a loop writes the lines and all-clears, and then the row goes. */
    method DeleteMonitor(m: Id, now: Time) returns (r: Result<seq<Id>, Refusal>)
      requires Valid()
      modifies this
      ensures r.Ok? <==> m in old(monitors)
      ensures r.Ok? ==> Lists(r.value, ActiveOf(old(Contents()), {m}))
      ensures Contents() == match I.DeleteMonitor(old(Contents()), m, now)
                            case Ok(db) => db
                            case Err(_) => old(Contents())
      ensures Valid() && Evolves(old(Contents()), Contents()) && m !in monitors
    {
      DeleteKeeps(Contents(), m, now);
      EvolvesSelf(Contents());
      r := CloseAndDelete(m, now);
    }

    /** The statements of the deletion. */
    method CloseAndDelete(m: Id, now: Time) returns (r: Result<seq<Id>, Refusal>)
      modifies this
      ensures r.Ok? <==> m in old(monitors)
      ensures r.Ok? ==> Lists(r.value, ActiveOf(old(Contents()), {m}))
      ensures Contents() == match I.DeleteMonitor(old(Contents()), m, now)
                            case Ok(db) => db
                            case Err(_) => old(Contents())
    {
      if m !in monitors {
        return Err(NotFound);
      }
      var db, line := Contents(), System(MonitorDeleted);
      var orphaned := FindActive(m);
      incidents := ClosedRows(incidents, Elements(orphaned), now);
      NothingClosed(db, now, line);
      for n := 0 to |orphaned|
        invariant monitors == db.monitors && incidents == ClosedRows(db.incidents, Elements(orphaned), now)
        invariant SoFar(db, ClosedRows(db.incidents, Elements(orphaned[..n]), now), Elements(orphaned[..n]),
                        timeline, intents, now, line)
      {
        var done := Elements(orphaned[..n]);
        OneMoreElement(orphaned, ActiveOf(db, {m}), n);
        OneMore(db, done, orphaned[n], now, line, ClosedRows(db.incidents, done, now), timeline, intents);
        RecordClosure(orphaned[n], line);
      }
      assert orphaned[..|orphaned|] == orphaned;
      monitors := map k | k in monitors && k != m :: monitors[k];
      incidents := map i | i in incidents ::
                     if incidents[i].monitorId == Some(m) then incidents[i].(monitorId := None) else incidents[i];
      return Ok(orphaned);
    }

    /** The observation always stands; the row moves only if it is still the one the verdict was judged on. */
    method RecordCheckOutcome(m: Id, seen: Monitor, verdict: Verdict, degradedResolves: bool, now: Time)
      returns (told: Option<Reconciliation>)
      requires Valid()
      modifies this
      ensures Valid() && Evolves(old(Contents()), Contents())
      ensures incidents == old(incidents) && timeline == old(timeline) && intents == old(intents)
      ensures told.None? ==> monitors == old(monitors)
      ensures told.Some? ==>
                && m in old(monitors) && m in monitors && !monitors[m].paused && monitors[m].status == told.value.status
                && monitors[m].firstFailureAt == AdvanceFailureRun(old(monitors)[m].firstFailureAt, verdict, now)
      ensures Contents() == I.RecordCheckOutcome(old(Contents()), m, seen, verdict, degradedResolves, now)
      ensures told == if WriteMatches(old(Contents()), m, seen)
                      then Some(Conclude(seen, verdict, degradedResolves, now).1) else None
    {
      RecordKeeps(Contents(), m, seen, verdict, degradedResolves, now);
      var run := AdvanceFailureRun(seen.firstFailureAt, verdict, now);
      var reconciliation := Reconcile(seen.windowSeconds, verdict, run, seen.status, now, degradedResolves);
      if m !in monitors || monitors[m].paused || monitors[m].firstFailureAt != seen.firstFailureAt {
        return None;
      }
      monitors := monitors[m := monitors[m].(firstFailureAt := run, status := reconciliation.status)];
      return Some(reconciliation);
    }
  }
}
