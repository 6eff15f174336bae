/** Every transaction keeps the invariant, evolves each incident as promised, and drops no intent. */
module IncidentTransactions {
  import opened Prelude
  import opened StatusController
  import opened Incidents
  import opened IncidentLaws

  // ----- opening -----

  lemma UnknownIncident(db: Db, i: Id)
    requires DbInv(db) && i !in db.incidents
    ensures i !in db.timeline && OpenedCause(i) !in db.intents
  {
    assert OpenedCause(i) in db.intents <==> IsOpenedFor(db, i);
  }

  lemma CreateKeeps(db: Db, i: Id, severity: Severity)
    requires DbInv(db) && i !in db.incidents
    ensures DbInv(CreateIncident(db, i, severity)) && Evolves(db, CreateIncident(db, i, severity))
    ensures OpenedCause(i) !in db.intents && OpenedCause(i) in CreateIncident(db, i, severity).intents
  {
    UnknownIncident(db, i);
    InsertKeeps(db, CreateIncident(db, i, severity), i, {OpenedCause(i)});
  }

  /** An open never doubles up: it refuses exactly on a missing, up or paused row or an open incident. */
  lemma OpenKeeps(db: Db, m: Id, i: Id)
    requires DbInv(db) && i !in db.incidents
    ensures var made := OpenMonitorIncident(db, m, i);
            && (made.Some? <==> m in db.monitors && !db.monitors[m].status.IsUp? && !db.monitors[m].paused
                                && forall j :: j in db.incidents ==> !db.incidents[j].ActiveFor(m))
            && (made.Some? ==>
                  && DbInv(made.value) && Evolves(db, made.value)
                  && Unhandled(made.value, m, i) && made.value.intents == db.intents
                  && (made.value.incidents[i].shadow <==> db.monitors[m].shadowBridge.Some?))
  {
    var made := OpenMonitorIncident(db, m, i);
    if made.Some? {
      InsertKeeps(db, made.value, i, {});
      assert Lines(made.value, i) == [Created];
    }
  }

  /** An automatic incident that is not a shadow: the only kind a worker may page for. */
  predicate Pageable(db: Db, i: Id) {
    i in db.incidents && db.incidents[i].source.Automatic? && !db.incidents[i].shadow
  }

  lemma PageKeeps(db: Db, i: Id, now: Time, pagedElsewhere: bool)
    requires DbInv(db) && Pageable(db, i) && db.incidents[i].notifiedAt.None?
    ensures var after := ClaimNotification(db, i, now, pagedElsewhere);
            && DbInv(after) && Evolves(db, after) && OpenedCause(i) !in db.intents
            && after.intents == db.intents[OpenedCause(i) := Intent(!pagedElsewhere)]
  {
    FreshCauses(db, i);
    TouchKeeps(db, ClaimNotification(db, i, now, pagedElsewhere), i, [], {OpenedCause(i)});
  }

  /**
   * The claim and the intent it owes are one commit, and the intent is never dropped on its key. The
   * statement itself takes any row nobody was alerted about; that only keeps the tables' rules on a
   * pageable one, which is what its callers hand it.
   */
  lemma ClaimKeeps(db: Db, i: Id, now: Time, pagedElsewhere: bool)
    requires DbInv(db)
    ensures var after := ClaimNotification(db, i, now, pagedElsewhere);
            if i !in db.incidents || db.incidents[i].notifiedAt.Some? then after == db && Evolves(db, after)
            else
              && after.incidents == db.incidents[i := db.incidents[i].(notifiedAt := Some(now))]
              && (DbInv(after) <==> Pageable(db, i))
              && (Pageable(db, i) ==>
                    && Evolves(db, after) && OpenedCause(i) !in db.intents
                    && after.intents == db.intents[OpenedCause(i) := Intent(!pagedElsewhere)])
  {
    var after := ClaimNotification(db, i, now, pagedElsewhere);
    if i !in db.incidents || db.incidents[i].notifiedAt.Some? {
      EvolvesSelf(db);
    } else if Pageable(db, i) {
      PageKeeps(db, i, now, pagedElsewhere);
    } else {
      assert !RowOk(after.incidents[i]);
    }
  }

  lemma SystemEventKeeps(db: Db, i: Id, note: Note)
    requires DbInv(db) && note != MonitorDeleted && note != ShadowEnded
    ensures DbInv(RecordSystemEvent(db, i, note)) && Evolves(db, RecordSystemEvent(db, i, note))
  {
    if i in db.incidents {
      FreshCauses(db, i);
      TouchKeeps(db, RecordSystemEvent(db, i, note), i, [System(note)], {});
    } else {
      EvolvesSelf(db);
    }
  }

  lemma EvolvesSelf(db: Db)
    ensures Evolves(db, db)
  {
  }

  // ----- operators, from a stale read -----

  /** The first acknowledgement wins, and a closed incident is never acknowledged. */
  lemma AcknowledgeKeeps(db: Db, i: Id, seen: Incident, user: UserId, now: Time)
    requires DbInv(db)
    ensures var r := Acknowledge(db, i, seen, user, now);
            r.Ok? ==> && DbInv(r.value) && Evolves(db, r.value) && r.value.intents == db.intents
                      && (r.value != db ==> db.incidents[i].Active() && db.incidents[i].acknowledgedAt.None?)
  {
    var r := Acknowledge(db, i, seen, user, now);
    if r.Ok? && r.value != db {
      var row := db.incidents[i].(acknowledgedAt := Some(now), acknowledgedBy := Some(user));
      FreshCauses(db, i);
      TouchTables(db, i, row, System(Acknowledged), UpdatedCause(i, 0), Intent(false));
      TouchKeeps(db, r.value, i, [System(Acknowledged)], {});
    } else {
      EvolvesSelf(db);
    }
  }

  lemma StatusTouches(db: Db, i: Id, to: IncidentStatus, user: UserId, now: Time)
    requires i in db.incidents && i in db.timeline && RowOk(db.incidents[i])
    requires db.incidents[i].monitorId.Some? ==> db.incidents[i].monitorId.value in db.monitors
    requires CanTransition(db.incidents[i].status, to)
    requires StatusIntent(db, i, Moved(db.incidents[i], to, now)).0 !in db.intents
    ensures var (cause, intent) := StatusIntent(db, i, Moved(db.incidents[i], to, now));
            var line := StatusChange(to, Some(user));
            var after := WriteStatus(db, i, to, user, now);
            && Touched(db, after, i, [line], {cause}) && TouchFits(db, after, i, [line], {cause})
            && after.intents == db.intents[cause := intent]
  {
    var row := Moved(db.incidents[i], to, now);
    var (cause, intent) := StatusIntent(db, i, row);
    TouchTables(db, i, row, StatusChange(to, Some(user)), cause, intent);
  }

  /** A committed status change keeps everything, and its broadcast is never dropped on its key. */
  lemma WriteStatusKeeps(db: Db, i: Id, to: IncidentStatus, user: UserId, now: Time)
    requires DbInv(db) && i in db.incidents && CanTransition(db.incidents[i].status, to)
    ensures var after := WriteStatus(db, i, to, user, now);
            var (cause, intent) := StatusIntent(db, i, Moved(db.incidents[i], to, now));
            && DbInv(after) && Evolves(db, after)
            && cause !in db.intents && after.intents == db.intents[cause := intent]
  {
    FreshCauses(db, i);
    StatusTouches(db, i, to, user, now);
    var (cause, intent) := StatusIntent(db, i, Moved(db.incidents[i], to, now));
    TouchKeeps(db, WriteStatus(db, i, to, user, now), i, [StatusChange(to, Some(user))], {cause});
  }

  /** A stale reader's change commits exactly when the status it validated is still the stored one. */
  lemma ChangeStatusKeeps(db: Db, i: Id, seen: Incident, to: IncidentStatus, user: UserId, now: Time)
    requires DbInv(db)
    ensures var r := ChangeStatus(db, i, seen, to, user, now);
            && (r.Ok? <==> i in db.incidents && db.incidents[i].status == seen.status && CanTransition(seen.status, to))
            && (r.Ok? ==>
                  var row := Moved(db.incidents[i], to, now);
                  var (cause, intent) := StatusIntent(db, i, row);
                  && DbInv(r.value) && Evolves(db, r.value)
                  && r.value.incidents == db.incidents[i := row]
                  && cause !in db.intents && r.value.intents == db.intents[cause := intent])
  {
    var r := ChangeStatus(db, i, seen, to, user, now);
    if r.Ok? { WriteStatusKeeps(db, i, to, user, now); }
  }

  lemma ChangeSeverityKeeps(db: Db, i: Id, seen: Incident, severity: Severity, user: UserId)
    requires DbInv(db)
    ensures var r := ChangeSeverity(db, i, seen, severity, user);
            r.Ok? ==> && DbInv(r.value) && Evolves(db, r.value)
                      && (r.value != db ==>
                            var cause := UpdatedCause(i, |Lines(db, i)|);
                            && db.incidents[i].Active()
                            && cause !in db.intents && r.value.intents == db.intents[cause := Intent(false)])
  {
    var r := ChangeSeverity(db, i, seen, severity, user);
    if r.Ok? && seen.severity != severity {
      var cause := UpdatedCause(i, |Lines(db, i)|);
      FreshCauses(db, i);
      TouchTables(db, i, db.incidents[i].(severity := severity), SeverityChange(severity, user), cause, Intent(false));
      TouchKeeps(db, r.value, i, [SeverityChange(severity, user)], {cause});
    } else {
      EvolvesSelf(db);
    }
  }

  /** A public update always broadcasts under a key of its own; an internal note never does. */
  lemma PostUpdateKeeps(db: Db, i: Id, internal: bool, user: UserId)
    requires DbInv(db)
    ensures var r := PostUpdate(db, i, internal, user);
            && (r.Ok? <==> i in db.incidents && db.incidents[i].Active())
            && (r.Ok? ==>
                  var cause := UpdatedCause(i, |Lines(db, i)|);
                  && DbInv(r.value) && Evolves(db, r.value)
                  && cause !in db.intents
                  && r.value.intents == if internal then db.intents else db.intents[cause := Intent(false)])
  {
    var r := PostUpdate(db, i, internal, user);
    if r.Ok? {
      var cause := UpdatedCause(i, |Lines(db, i)|);
      FreshCauses(db, i);
      TouchTables(db, i, db.incidents[i], Update(internal, user), cause, Intent(false));
      assert SetIncident(db, i, db.incidents[i]) == db by { assert db.incidents[i := db.incidents[i]] == db.incidents; }
      TouchKeeps(db, r.value, i, [Update(internal, user)], if internal then {} else {cause});
    }
  }

  // ----- closing -----

  lemma CloseOpenTables(db: Db, m: Id, now: Time, line: Event)
    requires RowsOk(db)
    ensures var ids := ActiveOf(db, {m});
            && ClosedTogether(db, CloseAll(db, ids, now, line, Announced(db, ids)), ids, now, line)
            && (forall i :: i in db.incidents ==> (i in ids <==> db.incidents[i].ActiveFor(m)))
  {
    CloseAllTables(db, ActiveOf(db, {m}), now, line, Announced(db, ActiveOf(db, {m})));
  }

  lemma CloseOpenAnnounces(db: Db, m: Id, now: Time, line: Event, closed: Db)
    requires IntentsOk(db) && ClosedTogether(db, closed, ActiveOf(db, {m}), now, line)
    ensures !HasActive(closed, m)
    ensures forall i :: i in ActiveOf(db, {m}) ==>
              && ResolvedCause(i) !in db.intents
              && (ResolvedCause(i) in closed.intents <==> db.incidents[i].notifiedAt.Some?)
  {
    var ids := ActiveOf(db, {m});
    forall i | i in ids
      ensures ResolvedCause(i) !in db.intents
      ensures ResolvedCause(i) in closed.intents <==> db.incidents[i].notifiedAt.Some?
    {
      assert ResolvedCause(i) in Announced(db, ids) <==> db.incidents[i].notifiedAt.Some?;
    }
  }

  /** Closing everything a monitor has open, with the all-clears it owes. */
  lemma CloseOpenKeeps(db: Db, m: Id, now: Time, line: Event)
    requires DbInv(db)
    ensures var ids := ActiveOf(db, {m});
            var closed := CloseAll(db, ids, now, line, Announced(db, ids));
            && DbInv(closed) && Evolves(db, closed) && !HasActive(closed, m)
            && ClosedTogether(db, closed, ids, now, line)
            && (forall i :: i in db.incidents ==> (i in ids <==> db.incidents[i].ActiveFor(m)))
            && (forall i :: i in ids ==> ResolvedCause(i) !in db.intents)
            && (forall i :: i in ids ==> (ResolvedCause(i) in closed.intents <==> db.incidents[i].notifiedAt.Some?))
  {
    var ids := ActiveOf(db, {m});
    var closed := CloseAll(db, ids, now, line, Announced(db, ids));
    CloseOpenTables(db, m, now, line);
    CloseKeeps(db, closed, ids, now, line);
    CloseOpenAnnounces(db, m, now, line, closed);
  }

  /** Auto-resolve closes what is open for the monitor, with an all-clear exactly where somebody was alerted. */
  lemma ResolveKeeps(db: Db, m: Id, now: Time)
    requires DbInv(db)
    ensures var after := ResolveMonitorIncidents(db, m, now);
            && DbInv(after) && Evolves(db, after) && !HasActive(after, m)
            && (forall i :: i in db.incidents && db.incidents[i].ActiveFor(m) ==>
                  && ResolvedCause(i) !in db.intents
                  && (ResolvedCause(i) in after.intents <==> db.incidents[i].notifiedAt.Some?))
            && (forall i :: i in db.incidents && !db.incidents[i].ActiveFor(m) ==>
                  after.incidents[i] == db.incidents[i])
  {
    CloseOpenKeeps(db, m, now, StatusChange(Resolved, None));
  }

  /** The monitor row is gone and `monitor_id` is nulled; nothing else moves. */
  ghost predicate Detached(db: Db, after: Db, m: Id) {
    && after.timeline == db.timeline && after.intents == db.intents
    && after.monitors == (map k | k in db.monitors && k != m :: db.monitors[k])
    && after.incidents.Keys == db.incidents.Keys
    && forall i :: i in db.incidents ==>
         after.incidents[i] == if db.incidents[i].monitorId == Some(m)
                               then db.incidents[i].(monitorId := None) else db.incidents[i]
  }

  lemma DetachKeepsRows(db: Db, m: Id, after: Db)
    requires RowsOk(db) && !HasActive(db, m) && Detached(db, after, m)
    ensures RowsOk(after)
  {
    forall i | i in db.incidents ensures RowOk(after.incidents[i]) {
      assert !db.incidents[i].ActiveFor(m);
    }
  }

  lemma DetachKeepsOneActive(db: Db, m: Id, after: Db)
    requires OneActive(db) && Detached(db, after, m)
    ensures OneActive(after)
  {
    forall j, k, n | j in after.incidents && k in after.incidents && after.incidents[j].ActiveFor(n) &&
                     after.incidents[k].ActiveFor(n)
      ensures j == k
    {
      assert db.incidents[j].ActiveFor(n) && db.incidents[k].ActiveFor(n);
    }
  }

  lemma DetachKeepsIntents(db: Db, m: Id, after: Db)
    requires IntentsOk(db) && ClosingLinesOk(db) && MonitorsOk(db) && Detached(db, after, m)
    ensures IntentsOk(after) && ClosingLinesOk(after) && MonitorsOk(after)
  {
    assert forall i :: IsOpenedFor(after, i) <==> IsOpenedFor(db, i);
    assert forall i :: Lines(after, i) == Lines(db, i);
  }

  lemma DetachEvolves(db: Db, m: Id, after: Db)
    requires Detached(db, after, m)
    ensures Evolves(db, after)
  {
    forall i | i in db.incidents ensures IncidentEvolves(db, after, i) {
    }
  }

  /** A row that moved on the way to `b` and was at most detached on the way to `c`. */
  lemma EvolvesThenDetaches(a: Db, b: Db, c: Db, i: Id)
    requires i in a.incidents && IncidentEvolves(a, b, i) && i in c.incidents && Lines(b, i) <= Lines(c, i)
    requires c.incidents[i] == b.incidents[i] || c.incidents[i] == b.incidents[i].(monitorId := None)
    requires c.intents == b.intents
    ensures IncidentEvolves(a, c, i)
  {
  }

  lemma EvolvesTransitively(a: Db, b: Db, c: Db)
    requires DbInv(b) && Evolves(a, b) && Evolves(b, c)
    requires forall i :: i in b.incidents ==>
               c.incidents[i] == b.incidents[i] || c.incidents[i] == b.incidents[i].(monitorId := None)
    requires c.intents == b.intents
    ensures Evolves(a, c)
  {
    forall i | i in a.incidents ensures IncidentEvolves(a, c, i) {
      assert IncidentEvolves(a, b, i) && IncidentEvolves(b, c, i);
      EvolvesThenDetaches(a, b, c, i);
    }
  }

  /** Deleting a monitor closes its incident, tells whoever was told, and leaves nothing open behind. */
  lemma DeleteKeeps(db: Db, m: Id, now: Time)
    requires DbInv(db)
    ensures var r := DeleteMonitor(db, m, now);
            && (r.Ok? <==> m in db.monitors)
            && (r.Ok? ==>
                  && DbInv(r.value) && Evolves(db, r.value) && m !in r.value.monitors
                  && (forall i :: i in db.incidents && db.incidents[i].ActiveFor(m) ==>
                        && r.value.incidents[i].status == Resolved && r.value.incidents[i].monitorId.None?
                        && (ResolvedCause(i) in r.value.intents <==> db.incidents[i].notifiedAt.Some?)))
  {
    if m in db.monitors {
      var ids := ActiveOf(db, {m});
      var line := System(MonitorDeleted);
      var closed := CloseAll(db, ids, now, line, Announced(db, ids));
      CloseOpenKeeps(db, m, now, line);
      var after := DeleteMonitor(db, m, now).value;
      DetachKeepsRows(closed, m, after);
      DetachKeepsOneActive(closed, m, after);
      DetachKeepsIntents(closed, m, after);
      DetachEvolves(closed, m, after);
      EvolvesTransitively(db, closed, after);
    }
  }

  lemma MonitorsChange(db: Db, after: Db)
    requires DbInv(db) && MonitorsOk(after) && after.monitors.Keys == db.monitors.Keys
    requires after == db.(monitors := after.monitors)
    ensures DbInv(after) && Evolves(db, after)
  {
    assert forall i :: IsOpenedFor(after, i) <==> IsOpenedFor(db, i);
    assert forall i :: Lines(after, i) == Lines(db, i);
  }

  lemma NobodyWasTold(db: Db, fleet: set<Id>)
    requires RowsOk(db)
    ensures Announced(db, ShadowActiveOf(db, fleet)) == {}
  {
    forall i | i in ShadowActiveOf(db, fleet) ensures db.incidents[i].notifiedAt.None? { assert RowOk(db.incidents[i]); }
  }

  /** The fleet's shadow incidents close without an all-clear, and none of them is owed one. */
  lemma ShadowCloseKeeps(db: Db, fleet: set<Id>, now: Time)
    requires DbInv(db)
    ensures var ids := ShadowActiveOf(db, fleet);
            var closed := CloseAll(db, ids, now, System(ShadowEnded), {});
            && DbInv(closed) && Evolves(db, closed) && closed.intents == db.intents && closed.monitors == db.monitors
            && closed.incidents.Keys == db.incidents.Keys
            && (forall i :: i in db.incidents ==>
                  closed.incidents[i] == if i in ids then Close(db.incidents[i], now) else db.incidents[i])
  {
    var ids := ShadowActiveOf(db, fleet);
    NobodyWasTold(db, fleet);
    var closed := CloseAll(db, ids, now, System(ShadowEnded), {});
    CloseAllTables(db, ids, now, System(ShadowEnded), {});
    CloseKeeps(db, closed, ids, now, System(ShadowEnded));
    assert closed.intents == db.intents;
  }

  /**
   * Ending shadow mode closes exactly the fleet's open shadow incidents, owes nobody anything, and
   * releases the fleet; an abandoned fleet is paused from a clean slate.
   */
  lemma EndShadowKeeps(db: Db, bridge: Id, abandon: bool, now: Time)
    requires DbInv(db)
    ensures var after, fleet := EndShadow(db, bridge, abandon, now), Fleet(db, bridge);
            && DbInv(after) && Evolves(db, after) && after.intents == db.intents
            && after.incidents.Keys == db.incidents.Keys && after.monitors.Keys == db.monitors.Keys
            && Fleet(after, bridge) == {}
            && (forall i :: i in db.incidents ==>
                  after.incidents[i] == if i in ShadowActiveOf(db, fleet) then Close(db.incidents[i], now)
                                        else db.incidents[i])
            && (forall m :: m in fleet ==>
                  && after.monitors[m].shadowBridge.None?
                  && (abandon ==> after.monitors[m].paused && after.monitors[m].status.IsUnknown?
                                  && after.monitors[m].firstFailureAt.None?)
                  && (!abandon ==> after.monitors[m] == db.monitors[m].(shadowBridge := None)))
            && (forall m :: m in db.monitors && m !in fleet ==> after.monitors[m] == db.monitors[m])
  {
    var closed := CloseAll(db, ShadowActiveOf(db, Fleet(db, bridge)), now, System(ShadowEnded), {});
    ShadowCloseKeeps(db, Fleet(db, bridge), now);
    var after := EndShadow(db, bridge, abandon, now);
    MonitorsChange(closed, after);
    SameIncidents(db, closed, after);
  }

  lemma SameIncidents(a: Db, b: Db, c: Db)
    requires Evolves(a, b) && c == b.(monitors := c.monitors)
    ensures Evolves(a, c)
  {
    forall i | i in a.incidents ensures IncidentEvolves(a, c, i) {
      assert IncidentEvolves(a, b, i);
    }
  }

  /** Pausing and resuming alike forget the failure run and the status, and touch nothing else. */
  lemma PauseKeeps(db: Db, m: Id, paused: bool)
    requires DbInv(db)
    ensures var r := SetMonitorPaused(db, m, paused);
            && (r.Ok? <==> m in db.monitors)
            && (r.Ok? ==>
                  var before, after := db.monitors[m], r.value.monitors[m];
                  && DbInv(r.value) && Evolves(db, r.value)
                  && after.paused == paused && after.status.IsUnknown? && after.firstFailureAt.None?
                  && after.windowSeconds == before.windowSeconds && after.shadowBridge == before.shadowBridge
                  && r.value.monitors == db.monitors[m := after] && r.value == db.(monitors := r.value.monitors))
  {
    var r := SetMonitorPaused(db, m, paused);
    if r.Ok? { MonitorsChange(db, r.value); }
  }

  // ----- the check's write -----

  /**
   * The write is all or nothing. Applied, it advances the run exactly as if the read had been made
   * under the write; refused, nothing at all is derived from the probe.
   */
  lemma RecordKeeps(db: Db, m: Id, seen: Monitor, verdict: Verdict, degradedResolves: bool, now: Time)
    requires DbInv(db)
    ensures var after := RecordCheckOutcome(db, m, seen, verdict, degradedResolves, now);
            && DbInv(after) && Evolves(db, after)
            && after.incidents == db.incidents && after.timeline == db.timeline && after.intents == db.intents
            && (!WriteMatches(db, m, seen) ==> after == db)
            && (WriteMatches(db, m, seen) ==>
                  && !db.monitors[m].paused
                  && after.monitors[m].firstFailureAt == AdvanceFailureRun(db.monitors[m].firstFailureAt, verdict, now)
                  && (after.monitors[m].status.IsDown? ==> after.monitors[m].firstFailureAt.Some?))
  {
    var after := RecordCheckOutcome(db, m, seen, verdict, degradedResolves, now);
    if WriteMatches(db, m, seen) {
      MonitorsChange(db, after);
    } else {
      EvolvesSelf(db);
    }
  }

  /**
   * The status read before the probe is not part of the write's predicate. The stored status differs
   * from the one a fresh read gives exactly when the row failed inside its window and the two reads differ.
   */
  lemma StaleStatusShows(db: Db, m: Id, seen: Monitor, verdict: Verdict, degradedResolves: bool, now: Time)
    requires WriteMatches(db, m, seen) && seen.windowSeconds == db.monitors[m].windowSeconds
    ensures var stale := RecordCheckOutcome(db, m, seen, verdict, degradedResolves, now).monitors[m].status;
            var fresh' := RecordCheckOutcome(db, m, db.monitors[m], verdict, degradedResolves, now).monitors[m].status;
            var failingFor := if seen.firstFailureAt.Some? then now - seen.firstFailureAt.value else 0;
            stale != fresh' <==>
            (verdict.Down? && failingFor < seen.windowSeconds * 1000 && seen.status != db.monitors[m].status)
  {
  }
}
