/**
 * What every transaction keeps: the invariant of the tables, and the two-state facts a
 * reader of an incident may rely on whatever commits in between.
 */
module IncidentLaws {
  import opened Prelude
  import opened StatusController
  import opened Incidents

  // ----- the invariant, one table rule at a time -----

  predicate IsOpenedFor(db: Db, i: Id) {
    i in db.incidents && (db.incidents[i].source.Manual? || db.incidents[i].notifiedAt.Some?)
  }

  /** An incident row on its own. */
  predicate RowOk(row: Incident) {
    && (row.status == Resolved <==> row.resolvedAt.Some?)
    && (row.source.Manual? ==> row.notifiedAt.None? && !row.shadow && row.monitorId.None?)
    && (row.shadow ==> row.notifiedAt.None?)
    && (row.source.Automatic? && row.Active() ==> row.monitorId.Some?)
  }

  ghost predicate RowsOk(db: Db) {
    && db.timeline.Keys == db.incidents.Keys
    && (forall i :: i in db.incidents ==> RowOk(db.incidents[i]))
    && (forall i :: i in db.incidents && db.incidents[i].monitorId.Some? ==>
          db.incidents[i].monitorId.value in db.monitors)
  }

  /** Never two open automatic incidents for one monitor. */
  ghost predicate OneActive(db: Db) {
    forall i, j, m ::
      i in db.incidents && j in db.incidents && db.incidents[i].ActiveFor(m) && db.incidents[j].ActiveFor(m) ==> i == j
  }

  /** Which intents exist, read off the incident rows and their timelines. */
  ghost predicate IntentsOk(db: Db) {
    && (forall i :: OpenedCause(i) in db.intents <==> IsOpenedFor(db, i))
    && (forall i :: ResolvedCause(i) in db.intents ==> i in db.incidents && db.incidents[i].status == Resolved)
    && (forall i :: ResolvedCause(i) in db.intents && db.incidents[i].notifiedAt.None? ==>
          !db.intents[ResolvedCause(i)].responders)
    && (forall i, n: nat :: UpdatedCause(i, n) in db.intents ==> i in db.incidents && n < |Lines(db, i)|)
  }

  predicate NoClosingLine(lines: seq<Event>) {
    System(MonitorDeleted) !in lines && System(ShadowEnded) !in lines
  }

  /** A deletion or the end of a shadow fleet leaves its line on closed incidents only. */
  ghost predicate ClosingLinesOk(db: Db) {
    forall i :: i in db.incidents && db.incidents[i].Active() ==> NoClosingLine(Lines(db, i))
  }

  /** A monitor stored as down is in a failure run. */
  ghost predicate MonitorsOk(db: Db) {
    forall m :: m in db.monitors && db.monitors[m].status.IsDown? ==> db.monitors[m].firstFailureAt.Some?
  }

  ghost predicate DbInv(db: Db) {
    RowsOk(db) && OneActive(db) && IntentsOk(db) && ClosingLinesOk(db) && MonitorsOk(db)
  }

  // ----- two-state facts -----

  /** What one transaction may do to one incident. */
  predicate RowEvolves(before: Incident, after: Incident) {
    && after.source == before.source && after.shadow == before.shadow
    && (after.monitorId == before.monitorId || after.monitorId.None?)
    && after.revision == before.revision + (if after.status != before.status then 1 else 0)
    && (before.notifiedAt.Some? ==> after.notifiedAt == before.notifiedAt)
    && (after.notifiedAt != before.notifiedAt ==> after.status == before.status)
    && (before.acknowledgedAt.Some? ==>
          after.acknowledgedAt == before.acknowledgedAt && after.acknowledgedBy == before.acknowledgedBy)
    && (before.status == Resolved ==>
          && after.status == Resolved && after.resolvedAt == before.resolvedAt && after.severity == before.severity
          && after.acknowledgedAt == before.acknowledgedAt && after.acknowledgedBy == before.acknowledgedBy)
  }

  /** An announced automatic incident that closes gets its all-clear, responder mail included, in the closing transaction. */
  ghost predicate ClosesAnnounced(before: Db, after: Db, i: Id)
    requires i in before.incidents && i in after.incidents
  {
    before.incidents[i].Active() && !after.incidents[i].Active() ==>
      && ResolvedCause(i) !in before.intents
      && (before.incidents[i].notifiedAt.Some? ==>
            ResolvedCause(i) in after.intents && after.intents[ResolvedCause(i)].responders)
  }

  /** What one transaction may do to one incident, its timeline and its all-clear. */
  ghost predicate IncidentEvolves(before: Db, after: Db, i: Id)
    requires i in before.incidents
  {
    && i in after.incidents && RowEvolves(before.incidents[i], after.incidents[i])
    && Lines(before, i) <= Lines(after, i)
    && ClosesAnnounced(before, after, i)
    && (before.incidents[i].status == Resolved ==>
          (ResolvedCause(i) in after.intents <==> ResolvedCause(i) in before.intents))
  }

  /** What one transaction may do to the tables: nothing recorded is ever lost. */
  ghost predicate Evolves(before: Db, after: Db) {
    && (forall i :: i in before.incidents ==> IncidentEvolves(before, after, i))
    && (forall i :: i in after.incidents && i !in before.incidents ==>
          after.incidents[i].notifiedAt.None? && after.incidents[i].Active())
    && (forall c :: c in before.intents ==> c in after.intents && after.intents[c] == before.intents[c])
  }

  // ----- single-row transactions -----

  /** One row changes, one line is appended, and perhaps one intent that was not there is recorded. */
  ghost predicate Touched(db: Db, after: Db, i: Id, lines: seq<Event>, owed: set<Cause>) {
    && i in db.incidents
    && after.monitors == db.monitors
    && after.incidents.Keys == db.incidents.Keys && after.timeline.Keys == db.timeline.Keys
    && (forall j :: j in db.incidents && j != i ==>
          after.incidents[j] == db.incidents[j] && Lines(after, j) == Lines(db, j))
    && Lines(after, i) == Lines(db, i) + lines
    && (forall c :: c in after.intents <==> c in db.intents || c in owed)
    && (forall c :: c in db.intents ==> after.intents[c] == db.intents[c])
  }

  /** The change is one the invariant allows. */
  ghost predicate TouchFits(db: Db, after: Db, i: Id, lines: seq<Event>, owed: set<Cause>)
    requires i in db.incidents && i in after.incidents
  {
    var was, row := db.incidents[i], after.incidents[i];
    && RowOk(row) && RowEvolves(was, row) && row.monitorId == was.monitorId
    && NoClosingLine(lines)
    && (forall c :: c in owed ==> c !in db.intents && c.incident == i)
    && (OpenedCause(i) in owed <==> row.notifiedAt != was.notifiedAt)
    && (ResolvedCause(i) in owed ==> row.status == Resolved)
    && (ResolvedCause(i) in owed && ResolvedCause(i) in after.intents ==>
          after.intents[ResolvedCause(i)].responders == was.notifiedAt.Some?)
    && (was.Active() && !row.Active() && was.notifiedAt.Some? ==> ResolvedCause(i) in owed)
    && (forall n: nat :: UpdatedCause(i, n) in owed ==> n < |Lines(db, i)| + |lines|)
    && (was.status == Resolved ==> ResolvedCause(i) !in owed)
  }

  lemma TouchKeepsRows(db: Db, after: Db, i: Id, lines: seq<Event>, owed: set<Cause>)
    requires RowsOk(db) && Touched(db, after, i, lines, owed) && TouchFits(db, after, i, lines, owed)
    ensures RowsOk(after)
  {
  }

  lemma TouchKeepsOneActive(db: Db, after: Db, i: Id, lines: seq<Event>, owed: set<Cause>)
    requires OneActive(db) && Touched(db, after, i, lines, owed) && TouchFits(db, after, i, lines, owed)
    ensures OneActive(after)
  {
    forall j, k, m | j in after.incidents && k in after.incidents && after.incidents[j].ActiveFor(m) &&
                     after.incidents[k].ActiveFor(m)
      ensures j == k
    {
      assert db.incidents[j].ActiveFor(m) && db.incidents[k].ActiveFor(m);
    }
  }

  lemma TouchKeepsIntents(db: Db, after: Db, i: Id, lines: seq<Event>, owed: set<Cause>)
    requires RowsOk(db) && IntentsOk(db)
    requires Touched(db, after, i, lines, owed) && TouchFits(db, after, i, lines, owed)
    ensures IntentsOk(after)
  {
    forall j ensures OpenedCause(j) in after.intents <==> IsOpenedFor(after, j) {
      assert IsOpenedFor(db, j) <==> OpenedCause(j) in db.intents;
    }
  }

  lemma TouchKeepsLines(db: Db, after: Db, i: Id, lines: seq<Event>, owed: set<Cause>)
    requires ClosingLinesOk(db) && Touched(db, after, i, lines, owed) && TouchFits(db, after, i, lines, owed)
    ensures ClosingLinesOk(after)
  {
  }

  lemma TouchEvolves(db: Db, after: Db, i: Id, lines: seq<Event>, owed: set<Cause>)
    requires IntentsOk(db) && Touched(db, after, i, lines, owed) && TouchFits(db, after, i, lines, owed)
    ensures Evolves(db, after)
  {
    forall j | j in db.incidents ensures IncidentEvolves(db, after, j) {
      assert ResolvedCause(j) in db.intents ==> db.incidents[j].status == Resolved;
    }
  }

  lemma TouchKeeps(db: Db, after: Db, i: Id, lines: seq<Event>, owed: set<Cause>)
    requires DbInv(db) && Touched(db, after, i, lines, owed) && TouchFits(db, after, i, lines, owed)
    ensures DbInv(after) && Evolves(db, after)
  {
    TouchKeepsRows(db, after, i, lines, owed);
    TouchKeepsOneActive(db, after, i, lines, owed);
    TouchKeepsIntents(db, after, i, lines, owed);
    TouchKeepsLines(db, after, i, lines, owed);
    TouchEvolves(db, after, i, lines, owed);
  }

  /** Set a row, append a line and record an intent whose key is new: one touched incident. */
  lemma TouchTables(db: Db, i: Id, row: Incident, line: Event, cause: Cause, intent: Intent)
    requires i in db.incidents && i in db.timeline
    ensures Touched(db, Append(SetIncident(db, i, row), i, line), i, [line], {})
    ensures cause !in db.intents ==>
              var after := RecordIntent(Append(SetIncident(db, i, row), i, line), cause, intent);
              && Touched(db, after, i, [line], {cause}) && after.incidents[i] == row
              && after.intents == db.intents[cause := intent]
  {
  }

  /** Keys no transaction has used yet: the next timeline entry's, and an active incident's all-clear. */
  lemma FreshCauses(db: Db, i: Id)
    requires DbInv(db) && i in db.incidents
    ensures i in db.timeline && RowOk(db.incidents[i])
    ensures UpdatedCause(i, |Lines(db, i)|) !in db.intents
    ensures db.incidents[i].Active() ==> ResolvedCause(i) !in db.intents
    ensures OpenedCause(i) in db.intents <==> IsOpenedFor(db, i)
  {
  }

  // ----- inserting an incident -----

  ghost predicate Inserted(db: Db, after: Db, i: Id, owed: set<Cause>) {
    && i !in db.incidents && after.monitors == db.monitors
    && after.incidents.Keys == db.incidents.Keys + {i} && after.timeline.Keys == db.timeline.Keys + {i}
    && (forall j :: j in db.incidents ==>
          after.incidents[j] == db.incidents[j] && Lines(after, j) == Lines(db, j))
    && Lines(after, i) == [Created]
    && (forall c :: c in after.intents <==> c in db.intents || c in owed)
    && (forall c :: c in db.intents ==> after.intents[c] == db.intents[c])
    && owed == (if after.incidents[i].source.Manual? then {OpenedCause(i)} else {})
    && RowOk(after.incidents[i]) && after.incidents[i].Active() && after.incidents[i].notifiedAt.None?
    && (after.incidents[i].monitorId.Some? ==>
          after.incidents[i].monitorId.value in db.monitors && !HasActive(db, after.incidents[i].monitorId.value))
  }

  lemma InsertKeepsOneActive(db: Db, after: Db, i: Id, owed: set<Cause>)
    requires OneActive(db) && Inserted(db, after, i, owed)
    ensures OneActive(after)
  {
    forall j, k, m | j in after.incidents && k in after.incidents && after.incidents[j].ActiveFor(m) &&
                     after.incidents[k].ActiveFor(m)
      ensures j == k
    {
      assert j != i ==> db.incidents[j].ActiveFor(m);
      assert k != i ==> db.incidents[k].ActiveFor(m);
    }
  }

  lemma InsertKeepsIntents(db: Db, after: Db, i: Id, owed: set<Cause>)
    requires IntentsOk(db) && Inserted(db, after, i, owed)
    ensures IntentsOk(after)
  {
    forall j ensures OpenedCause(j) in after.intents <==> IsOpenedFor(after, j) {
      assert IsOpenedFor(db, j) <==> OpenedCause(j) in db.intents;
    }
  }

  lemma InsertKeepsRows(db: Db, after: Db, i: Id, owed: set<Cause>)
    requires RowsOk(db) && ClosingLinesOk(db) && Inserted(db, after, i, owed)
    ensures RowsOk(after) && ClosingLinesOk(after)
  {
  }

  lemma InsertKeeps(db: Db, after: Db, i: Id, owed: set<Cause>)
    requires DbInv(db) && Inserted(db, after, i, owed)
    ensures DbInv(after) && Evolves(db, after)
  {
    InsertKeepsOneActive(db, after, i, owed);
    InsertKeepsIntents(db, after, i, owed);
    InsertKeepsRows(db, after, i, owed);
    forall j | j in db.incidents ensures IncidentEvolves(db, after, j) {
    }
  }

  // ----- closing several incidents -----

  /** `ids` close together with one line each, and every announced one gets its all-clear. */
  ghost predicate ClosedTogether(db: Db, after: Db, ids: set<Id>, now: Time, line: Event) {
    && (forall i :: i in ids ==> i in db.incidents && db.incidents[i].source.Automatic? && db.incidents[i].Active())
    && after.monitors == db.monitors
    && after.incidents.Keys == db.incidents.Keys && after.timeline.Keys == db.timeline.Keys
    && (forall i :: i in db.incidents ==>
          && after.incidents[i] == (if i in ids then Close(db.incidents[i], now) else db.incidents[i])
          && Lines(after, i) == (if i in ids then Lines(db, i) + [line] else Lines(db, i)))
    && (forall c :: c in after.intents <==> c in db.intents || c in Announced(db, ids))
    && (forall c :: c in after.intents && c !in db.intents ==> after.intents[c].responders)
    && (forall c :: c in db.intents ==> after.intents[c] == db.intents[c])
  }

  lemma CloseAllTables(db: Db, ids: set<Id>, now: Time, line: Event, owed: set<Cause>)
    requires RowsOk(db) && owed == Announced(db, ids)
    requires forall i :: i in ids ==> i in db.incidents && db.incidents[i].source.Automatic? && db.incidents[i].Active()
    ensures ClosedTogether(db, CloseAll(db, ids, now, line, owed), ids, now, line)
  {
  }

  lemma CloseKeepsOneActive(db: Db, after: Db, ids: set<Id>, now: Time, line: Event)
    requires OneActive(db) && ClosedTogether(db, after, ids, now, line)
    ensures OneActive(after)
  {
    forall j, k, m | j in after.incidents && k in after.incidents && after.incidents[j].ActiveFor(m) &&
                     after.incidents[k].ActiveFor(m)
      ensures j == k
    {
      assert db.incidents[j].ActiveFor(m) && db.incidents[k].ActiveFor(m);
    }
  }

  lemma CloseKeepsIntents(db: Db, after: Db, ids: set<Id>, now: Time, line: Event)
    requires IntentsOk(db) && ClosedTogether(db, after, ids, now, line)
    ensures IntentsOk(after)
    ensures forall i :: i in ids ==> ResolvedCause(i) !in db.intents
  {
    forall j ensures OpenedCause(j) in after.intents <==> IsOpenedFor(after, j) {
      assert IsOpenedFor(db, j) <==> OpenedCause(j) in db.intents;
    }
  }

  lemma CloseEvolves(db: Db, after: Db, ids: set<Id>, now: Time, line: Event)
    requires IntentsOk(db) && ClosedTogether(db, after, ids, now, line)
    ensures Evolves(db, after)
  {
    forall j | j in db.incidents ensures IncidentEvolves(db, after, j) {
      assert ResolvedCause(j) in db.intents ==> db.incidents[j].status == Resolved;
      assert ResolvedCause(j) in Announced(db, ids) <==> j in ids && db.incidents[j].notifiedAt.Some?;
    }
  }

  lemma CloseKeepsRows(db: Db, after: Db, ids: set<Id>, now: Time, line: Event)
    requires RowsOk(db) && ClosingLinesOk(db) && ClosedTogether(db, after, ids, now, line)
    ensures RowsOk(after) && ClosingLinesOk(after)
  {
  }

  lemma CloseKeeps(db: Db, after: Db, ids: set<Id>, now: Time, line: Event)
    requires DbInv(db) && ClosedTogether(db, after, ids, now, line)
    ensures DbInv(after) && Evolves(db, after)
  {
    CloseKeepsOneActive(db, after, ids, now, line);
    CloseKeepsIntents(db, after, ids, now, line);
    CloseEvolves(db, after, ids, now, line);
    CloseKeepsRows(db, after, ids, now, line);
  }
}
