/**
 * What an import leaves behind: live ids in every cache, a count that matches the table, and a
 * table on which the same import has nothing left to create.
 */
module ImporterLaws {
  import opened Prelude
  import opened Text
  import opened Importer

  // ----- every step keeps the caches live and the count right -----

  ghost predicate CachesLive(rows: Rows, byPath: Index) {
    forall k :: k in byPath ==> byPath[k] in rows
  }

  /** Ids not handed out yet are not in the table, and every cached id is. */
  ghost predicate Live(env: Env, w: Run) {
    && (forall id :: id in w.rows ==> id < w.nextId)
    && NamesRows(env, w.rows, w.existing) && CachesLive(w.rows, w.byPath)
  }

  /** Nothing of `a` was changed or lost on the way to `b`. */
  ghost predicate Grows(a: Run, b: Run) {
    && a.nextId <= b.nextId
    && (forall id :: id in a.rows ==> id in b.rows && b.rows[id] == a.rows[id])
    && (forall k :: k in a.existing ==> k in b.existing)
  }

  /** Rows added are lines that carry an id. */
  ghost predicate Counts(a: Run, b: Run, lines: nat) {
    |b.rows| + Carried(a.groups) == |a.rows| + Carried(b.groups) + lines
  }

  /** A step that keeps the caches live and adds `lines` rows under their own lines. */
  ghost predicate Kept(env: Env, a: Run, b: Run, lines: nat) {
    Live(env, b) && Grows(a, b) && Counts(a, b, lines)
  }

  lemma KeptOn(env: Env, a: Run, b: Run, c: Run, m: nat, n: nat)
    requires Kept(env, a, b, m) && Kept(env, b, c, n)
    ensures Kept(env, a, c, m + n)
  {
  }

  lemma IdsSpent(env: Env, w: Run, nextId: nat)
    requires Live(env, w) && w.nextId <= nextId
    ensures Kept(env, w, w.(nextId := nextId), 0)
  {
  }

  lemma CarriedPush(entries: seq<Entry>, e: Entry)
    ensures Carried(entries + [e]) == Carried(entries) + if e.monitorId.Some? then 1 else 0
  {
    assert (entries + [e])[..|entries|] == entries;
  }

  lemma {:induction false} CarriedConcat(a: seq<Entry>, b: seq<Entry>)
    ensures Carried(a + b) == Carried(a) + Carried(b)
    decreases |b|
  {
    if b == [] {
      assert a + b == a;
    } else {
      assert (a + b)[..|a + b| - 1] == a + b[..|b| - 1];
      CarriedConcat(a, b[..|b| - 1]);
    }
  }

  /** A fresh row leaves the rest of the table and every index as they were. */
  lemma FreshRow(env: Env, w: Run, row: Row)
    requires Live(env, w)
    ensures var rows := w.rows[w.nextId := row];
            && |rows| == |w.rows| + 1 && NamesRows(env, rows, w.existing) && CachesLive(rows, w.byPath)
            && (forall id :: id in w.rows ==> id in rows && rows[id] == w.rows[id])
            && (forall id :: id in rows ==> id < w.nextId + 1)
  {
  }

  lemma ReusedKept(env: Env, w: Run, key: string, id: nat)
    requires Live(env, w) && id in w.rows
    ensures Kept(env, w, Noted(w, key, id, GroupEntry(key, Reused, None)), 0)
  {
    CarriedPush(w.groups, GroupEntry(key, Reused, None));
  }

  lemma MadeKept(env: Env, w: Run, key: string, row: Row)
    requires Live(env, w)
    ensures Kept(env, w, Noted(w.(rows := w.rows[w.nextId := row], nextId := w.nextId + 1), key, w.nextId,
                               GroupEntry(key, Importer.Created, Some(w.nextId))), 0)
  {
    FreshRow(env, w, row);
    CarriedPush(w.groups, GroupEntry(key, Importer.Created, Some(w.nextId)));
  }

  ghost predicate ResolvedWell(env: Env, w: Run, r: Resolved) {
    if r.Failed? then w.nextId <= r.nextId
    else Kept(env, w, r.after, 0) && r.after.existing == w.existing && (r.id.Some? ==> r.id.value in r.after.rows)
  }

  lemma SegmentKeeps(env: Env, w: Run, path: seq<string>, depth: nat, parent: Option<nat>)
    requires Live(env, w) && depth < |path| && (parent.Some? ==> parent.value in w.rows)
    ensures ResolvedWell(env, w, Segment(env, w, path, depth, parent))
  {
    var name, key := env.clip(path[depth]), PathKey(path[..depth + 1]);
    if name != "" && key !in w.byPath {
      if GroupKey(env, parent, name) in w.existing {
        ReusedKept(env, w, key, w.existing[GroupKey(env, parent, name)]);
      } else {
        MadeKept(env, w, key, GroupRow(name, parent));
      }
    }
  }

  lemma ResolvedOn(env: Env, w: Run, next: Run, r: Resolved)
    requires Kept(env, w, next, 0) && next.existing == w.existing && ResolvedWell(env, next, r)
    ensures ResolvedWell(env, w, r)
  {
    if r.Found? {
      KeptOn(env, w, next, r.after, 0, 0);
    }
  }

  lemma {:induction false} ResolveFromKeeps(env: Env, w: Run, path: seq<string>, depth: nat, parent: Option<nat>)
    requires Live(env, w) && depth <= |path| && (parent.Some? ==> parent.value in w.rows)
    ensures ResolvedWell(env, w, ResolveFrom(env, w, path, depth, parent))
    decreases |path| - depth
  {
    if depth < |path| {
      SegmentKeeps(env, w, path, depth, parent);
      var s := Segment(env, w, path, depth, parent);
      if s.Found? {
        ResolveFromKeeps(env, s.after, path, depth + 1, s.id);
        ResolvedOn(env, w, s.after, ResolveFrom(env, s.after, path, depth + 1, s.id));
      }
    }
  }

  /** A path resolved or rolled back: the parent it gives is a live row, and no cached id is left dangling. */
  lemma ResolveKeeps(env: Env, w: Run, path: seq<string>)
    requires Live(env, w)
    ensures var p := Resolve(env, w, path);
            && Kept(env, w, p.after, 0) && p.after.existing == w.existing
            && (p.id.Some? ==> p.id.value in p.after.rows)
            && (p.failed ==> p.after.rows == w.rows && p.after.byPath == w.byPath && p.after.groups == w.groups)
  {
    ResolveFromKeeps(env, w, path, 0, None);
    var r := ResolveFrom(env, w, path, 0, None);
    if r.Failed? {
      IdsSpent(env, w, r.nextId);
    }
  }

  lemma GrowsOn(a: Run, b: Run, c: Run)
    requires Grows(a, b) && Grows(b, c)
    ensures Grows(a, c)
  {
  }

  function Stored(w: Run, row: Row, key: string): Run {
    w.(rows := w.rows[w.nextId := row], nextId := w.nextId + 1, existing := w.existing[key := w.nextId])
  }

  lemma StoredKept(env: Env, w: Run, row: Row)
    requires Live(env, w)
    ensures Kept(env, w, Stored(w, row, IdentityKey(env, row.checkType, row.url, row.name)), 1)
  {
    FreshRow(env, w, row);
  }

  /** A created line carries the id of the row just stored; any other line carries none. */
  ghost predicate LineFits(check: Check, row: Row, after: Run, entry: Entry) {
    && entry.sourceId == check.sourceId
    && (entry.monitorId.Some? <==> entry.reason == Importer.Created)
    && (entry.monitorId.Some? ==>
          entry.monitorId.value in after.rows && after.rows[entry.monitorId.value] == row.(paused := check.paused))
  }

  /** The three things that can come of storing a row. */
  lemma StoreCases(env: Env, w: Run, check: Check, row: Row, changed: bool)
    ensures var (after, entry) := Store(env, w, check, row, changed);
            var key := IdentityKey(env, row.checkType, row.url, row.name);
            match entry.reason
            case SameMonitor => key in w.existing && after == w && entry.monitorId == None
            case StoreRefused => key !in w.existing && after == w.(nextId := w.nextId + 1) && entry.monitorId == None
            case Created => key !in w.existing && entry.monitorId == Some(w.nextId)
                            && after == Stored(w, row.(paused := check.paused), key)
            case _ => false
  {
  }

  lemma StoreKeeps(env: Env, w: Run, check: Check, row: Row, changed: bool)
    requires Live(env, w)
    ensures var (after, entry) := Store(env, w, check, row, changed);
            Kept(env, w, after, if entry.monitorId.Some? then 1 else 0) && LineFits(check, row, after, entry)
  {
    StoreCases(env, w, check, row, changed);
    StoredKept(env, w, row.(paused := check.paused));
    IdsSpent(env, w, w.nextId);
    IdsSpent(env, w, w.nextId + 1);
  }

  /** The row a check would be stored as. */
  function RowOf(env: Env, w: Run, check: Check): Row
    requires env.translate(check).Build?
  {
    var t := env.translate(check);
    CheckRow(env, check, t.checkType, t.url, t.name, Resolve(env, w, check.groupPath).id)
  }

  lemma CheckCases(env: Env, imported: Index, w: Run, check: Check) returns (changed: bool)
    ensures var placed := Resolve(env, w, check.groupPath);
            ImportCheck(env, imported, w, check) ==
            if env.digest(check.sourceId) in imported then (w, CheckEntry(check, Skipped, AlreadyImported, None))
            else if env.translate(check).Unmapped? then (w, CheckEntry(check, Unsupported, NotMapped, None))
            else if env.translate(check).Refused? then (placed.after, CheckEntry(check, Skipped, RulesRefuse, None))
            else Store(env, placed.after, check, RowOf(env, w, check), changed)
  {
    var placed := Resolve(env, w, check.groupPath);
    changed := env.translate(check).Build? && (env.translate(check).changed || placed.id.Some? || placed.failed);
  }

  lemma BuildKeeps(env: Env, w: Run, check: Check, changed: bool)
    requires Live(env, w) && env.translate(check).Build?
    ensures var (after, entry) := Store(env, Resolve(env, w, check.groupPath).after, check, RowOf(env, w, check), changed);
            && Kept(env, w, after, if entry.monitorId.Some? then 1 else 0)
            && LineFits(check, RowOf(env, w, check), after, entry)
  {
    var placed := Resolve(env, w, check.groupPath);
    ResolveKeeps(env, w, check.groupPath);
    StoreKeeps(env, placed.after, check, RowOf(env, w, check), changed);
    var (after, entry) := Store(env, placed.after, check, RowOf(env, w, check), changed);
    KeptOn(env, w, placed.after, after, 0, if entry.monitorId.Some? then 1 else 0);
  }

  /** A created line, and only a created line, carries the id of a row that records its source. */
  ghost predicate LineOf(env: Env, check: Check, after: Run, entry: Entry) {
    && entry.sourceId == check.sourceId
    && (entry.monitorId.Some? <==> entry.reason == Importer.Created)
    && (entry.monitorId.Some? ==>
          entry.monitorId.value in after.rows &&
          after.rows[entry.monitorId.value].origin == Some(Origin(env.provider, env.digest(check.sourceId))))
  }

  lemma CheckKeeps(env: Env, imported: Index, w: Run, check: Check)
    requires Live(env, w)
    ensures StepOk(env, Importing(env, imported), w, check)
  {
    var changed := CheckCases(env, imported, w, check);
    IdsSpent(env, w, w.nextId);
    ResolveKeeps(env, w, check.groupPath);
    if env.translate(check).Build? {
      BuildKeeps(env, w, check, changed);
    }
  }

  ghost predicate StepOk(env: Env, step: Step, w: Run, check: Check) {
    var (after, entry) := step(w, check);
    Kept(env, w, after, if entry.monitorId.Some? then 1 else 0) && LineOf(env, check, after, entry)
  }

  ghost predicate Steps(env: Env, step: Step) {
    forall w, check :: Live(env, w) ==> StepOk(env, step, w, check)
  }

  lemma ImportingSteps(env: Env, imported: Index)
    ensures Steps(env, Importing(env, imported))
  {
    forall w, check | Live(env, w) ensures StepOk(env, Importing(env, imported), w, check) {
      CheckKeeps(env, imported, w, check);
    }
  }

  lemma {:induction false} ChecksKeep(env: Env, step: Step, w: Run, checks: seq<Check>)
    requires Live(env, w) && Steps(env, step)
    ensures var (after, lines) := ImportChecks(step, w, checks); Kept(env, w, after, Carried(lines))
    decreases |checks|
  {
    if checks == [] {
      IdsSpent(env, w, w.nextId);
    } else {
      var last := |checks| - 1;
      ChecksKeep(env, step, w, checks[..last]);
      var (before, lines) := ImportChecks(step, w, checks[..last]);
      var (after, entry) := step(before, checks[last]);
      assert StepOk(env, step, before, checks[last]);
      CarriedPush(lines, entry);
      KeptOn(env, w, before, after, Carried(lines), if entry.monitorId.Some? then 1 else 0);
    }
  }

  // ----- the headline number -----

  ghost predicate DistinctIds(checks: seq<Check>) {
    forall i, j :: 0 <= i < j < |checks| ==> checks[i].sourceId != checks[j].sourceId
  }

  lemma {:induction false} ByIdOfDistinct(checks: seq<Check>, lines: seq<Entry>, i: nat)
    requires |checks| == |lines| && i < |checks| && DistinctIds(checks)
    ensures ById(checks, lines)[checks[i].sourceId] == lines[i]
    decreases |checks|
  {
    var last := |checks| - 1;
    if i < last {
      ByIdOfDistinct(checks[..last], lines[..last], i);
    }
  }

  /**
   * Conservation. With distinct source ids the report's `monitorsCreated` is exactly the number of
   * rows the import added, however many group savepoints rolled back on the way.
   */
  lemma CreatedMatchesTable(env: Env, imported: Index, rows: Rows, nextId: nat, existing: Index, checks: seq<Check>,
                            extras: seq<Entry>)
    requires DistinctIds(checks) && Loaded(env, rows, existing) && (forall id :: id in rows ==> id < nextId)
    requires forall e :: e in extras ==> e.monitorId == None
    ensures var (after, lines) := ImportChecks(Importing(env, imported), Run(rows, nextId, map[], [], existing), checks);
            Carried(CheckLines(checks, lines) + after.groups + extras) == |after.rows| - |rows|
  {
    var w := Run(rows, nextId, map[], [], existing);
    ImportingSteps(env, imported);
    ChecksKeep(env, Importing(env, imported), w, checks);
    var (after, lines) := ImportChecks(Importing(env, imported), w, checks);
    forall i | 0 <= i < |checks| ensures CheckLines(checks, lines)[i] == lines[i] {
      ByIdOfDistinct(checks, lines, i);
    }
    assert CheckLines(checks, lines) == lines;
    NoneCarried(extras);
    CarriedConcat(lines, after.groups);
    CarriedConcat(lines + after.groups, extras);
  }

  lemma {:induction false} NoneCarried(extras: seq<Entry>)
    requires forall e :: e in extras ==> e.monitorId == None
    ensures Carried(extras) == 0
    decreases |extras|
  {
    if extras != [] {
      assert forall e :: e in extras[..|extras| - 1] ==> e in extras;
      assert extras[|extras| - 1] in extras;
      NoneCarried(extras[..|extras| - 1]);
    }
  }

  // ----- importing again -----

  ghost predicate HasOrigin(env: Env, rows: Rows, check: Check) {
    exists id :: id in rows && rows[id].origin == Some(Origin(env.provider, env.digest(check.sourceId)))
  }

  /** Some row answers to the name, type and target this check would be stored with. */
  ghost predicate HasTwin(env: Env, rows: Rows, check: Check) {
    env.translate(check).Build? &&
    var t := env.translate(check);
    exists id :: id in rows && HasKey(env, rows[id], IdentityKey(env, t.checkType, t.url, t.name))
  }

  /** Nothing about this check is left to create, unless it was the store that refused it. */
  ghost predicate Settled(env: Env, rows: Rows, check: Check, entry: Entry) {
    entry.reason == StoreRefused || !env.translate(check).Build? || HasOrigin(env, rows, check) || HasTwin(env, rows, check)
  }

  ghost predicate ImportsLive(env: Env, rows: Rows, imported: Index) {
    forall k :: k in imported ==> imported[k] in rows && rows[imported[k]].origin == Some(Origin(env.provider, k))
  }

  ghost predicate Extends(rows: Rows, more: Rows) {
    forall id :: id in rows ==> id in more && more[id] == rows[id]
  }

  lemma SettledStays(env: Env, rows: Rows, more: Rows, check: Check, entry: Entry)
    requires Settled(env, rows, check, entry) && Extends(rows, more)
    ensures Settled(env, more, check, entry)
  {
    if HasOrigin(env, rows, check) {
      var id :| id in rows && rows[id].origin == Some(Origin(env.provider, env.digest(check.sourceId)));
      assert id in more && more[id].origin == rows[id].origin;
    } else if HasTwin(env, rows, check) {
      var t := env.translate(check);
      var id :| id in rows && HasKey(env, rows[id], IdentityKey(env, t.checkType, t.url, t.name));
      assert id in more && HasKey(env, more[id], IdentityKey(env, t.checkType, t.url, t.name));
    }
  }

  lemma StoreSettles(env: Env, w: Run, check: Check, row: Row, changed: bool)
    requires Live(env, w)
    ensures var (after, entry) := Store(env, w, check, row, changed);
            match entry.reason
            case SameMonitor =>
              exists id :: id in after.rows && HasKey(env, after.rows[id], IdentityKey(env, row.checkType, row.url, row.name))
            case Created => exists id :: id in after.rows && after.rows[id].origin == row.origin
            case r => r == StoreRefused
  {
    var key := IdentityKey(env, row.checkType, row.url, row.name);
    StoreCases(env, w, check, row, changed);
    if key in w.existing {
      assert HasKey(env, w.rows[w.existing[key]], key);
    } else if Store(env, w, check, row, changed).1.reason == Importer.Created {
      assert w.nextId in Stored(w, row.(paused := check.paused), key).rows;
    }
  }

  lemma CheckSettles(env: Env, imported: Index, w: Run, check: Check)
    requires Live(env, w) && ImportsLive(env, w.rows, imported)
    ensures var (after, entry) := ImportCheck(env, imported, w, check); Settled(env, after.rows, check, entry)
  {
    var changed := CheckCases(env, imported, w, check);
    if env.digest(check.sourceId) in imported {
      assert HasOrigin(env, w.rows, check);
    } else if env.translate(check).Build? {
      ResolveKeeps(env, w, check.groupPath);
      StoreSettles(env, Resolve(env, w, check.groupPath).after, check, RowOf(env, w, check), changed);
    }
  }

  /** The import when it comes to check `i`, and that nothing done by then or then is undone later. */
  lemma {:induction false} WhenItComesTo(env: Env, step: Step, w: Run, checks: seq<Check>, i: nat)
    returns (before: Run, after: Run)
    requires Live(env, w) && Steps(env, step) && i < |checks|
    ensures Live(env, before) && Grows(w, before) && StepOk(env, step, before, checks[i])
    ensures var (final, lines) := ImportChecks(step, w, checks);
            (after, lines[i]) == step(before, checks[i]) && Grows(after, final)
    decreases |checks|
  {
    var last := |checks| - 1;
    ChecksKeep(env, step, w, checks[..last]);
    var (most, lines) := ImportChecks(step, w, checks[..last]);
    var (final, entry) := step(most, checks[last]);
    assert StepOk(env, step, most, checks[last]);
    if i == last {
      before, after := most, final;
    } else {
      before, after := WhenItComesTo(env, step, w, checks[..last], i);
      GrowsOn(after, most, final);
    }
  }

  lemma ChecksSettle(env: Env, imported: Index, w: Run, checks: seq<Check>, i: nat)
    requires Live(env, w) && ImportsLive(env, w.rows, imported) && i < |checks|
    ensures var (final, lines) := ImportChecks(Importing(env, imported), w, checks);
            Settled(env, final.rows, checks[i], lines[i])
  {
    ImportingSteps(env, imported);
    var before, after := WhenItComesTo(env, Importing(env, imported), w, checks, i);
    CheckSettles(env, imported, before, checks[i]);
    var (final, lines) := ImportChecks(Importing(env, imported), w, checks);
    SettledStays(env, after.rows, final.rows, checks[i], lines[i]);
  }

  lemma CheckCreatesNew(env: Env, imported: Index, w: Run, check: Check)
    requires Live(env, w) && ImportCheck(env, imported, w, check).1.reason == Importer.Created
    ensures env.digest(check.sourceId) !in imported && env.translate(check).Build?
    ensures var t := env.translate(check); IdentityKey(env, t.checkType, t.url, t.name) !in w.existing
  {
    var changed := CheckCases(env, imported, w, check);
    ResolveKeeps(env, w, check.groupPath);
    if env.digest(check.sourceId) !in imported && env.translate(check).Build? {
      StoreCases(env, Resolve(env, w, check.groupPath).after, check, RowOf(env, w, check), changed);
    }
  }

  /** A check for which something is created had nothing in the table that an import looks for. */
  lemma OnlyNewAreCreated(env: Env, rows: Rows, imported: Index, existing: Index, w: Run, checks: seq<Check>, i: nat)
    requires LoadedImports(env, rows, imported) && Loaded(env, rows, existing) && i < |checks|
    requires Live(env, w) && w.existing == existing
    ensures var (final, lines) := ImportChecks(Importing(env, imported), w, checks);
            lines[i].monitorId.Some? ==>
              env.translate(checks[i]).Build? && !HasOrigin(env, rows, checks[i]) && !HasTwin(env, rows, checks[i])
  {
    ImportingSteps(env, imported);
    var before, after := WhenItComesTo(env, Importing(env, imported), w, checks, i);
    if ImportChecks(Importing(env, imported), w, checks).1[i].monitorId.Some? {
      CheckCreatesNew(env, imported, before, checks[i]);
      if HasTwin(env, rows, checks[i]) {
        TwinIsLoaded(env, rows, existing, checks[i]);
      }
    }
  }

  lemma TwinIsLoaded(env: Env, rows: Rows, existing: Index, check: Check)
    requires Loaded(env, rows, existing) && HasTwin(env, rows, check)
    ensures var t := env.translate(check); IdentityKey(env, t.checkType, t.url, t.name) in existing
  {
  }

  /** A whole import on a table, with whatever order its indexes were read in. */
  ghost predicate Imports(env: Env, rows: Rows, nextId: nat, checks: seq<Check>, after: Run, lines: seq<Entry>) {
    exists imported, existing ::
      && LoadedImports(env, rows, imported) && Loaded(env, rows, existing)
      && ImportChecks(Importing(env, imported), Run(rows, nextId, map[], [], existing), checks) == (after, lines)
  }

  lemma ImportSettles(env: Env, rows: Rows, nextId: nat, checks: seq<Check>, after: Run, lines: seq<Entry>, i: nat)
    requires Imports(env, rows, nextId, checks, after, lines) && (forall id :: id in rows ==> id < nextId) && i < |checks|
    ensures |lines| == |checks| && Settled(env, after.rows, checks[i], lines[i])
  {
    var imported, existing :| LoadedImports(env, rows, imported) && Loaded(env, rows, existing)
      && ImportChecks(Importing(env, imported), Run(rows, nextId, map[], [], existing), checks) == (after, lines);
    ChecksSettle(env, imported, Run(rows, nextId, map[], [], existing), checks, i);
  }

  lemma ImportCreatesNew(env: Env, rows: Rows, nextId: nat, checks: seq<Check>, after: Run, lines: seq<Entry>, i: nat)
    requires Imports(env, rows, nextId, checks, after, lines) && (forall id :: id in rows ==> id < nextId) && i < |checks|
    ensures |lines| == |checks|
    ensures lines[i].monitorId.Some? ==>
              env.translate(checks[i]).Build? && !HasOrigin(env, rows, checks[i]) && !HasTwin(env, rows, checks[i])
  {
    var imported, existing :| LoadedImports(env, rows, imported) && Loaded(env, rows, existing)
      && ImportChecks(Importing(env, imported), Run(rows, nextId, map[], [], existing), checks) == (after, lines);
    OnlyNewAreCreated(env, rows, imported, existing, Run(rows, nextId, map[], [], existing), checks, i);
  }

  /**
   * Importing the same snapshot again, whatever else was added to the table in between and whatever
   * the store refuses this time, creates a monitor only for a check the store refused before.
   */
  lemma ReimportCreatesNothing(env: Env, refuses: (Rows, Row) -> bool, checks: seq<Check>, i: nat,
                               rows: Rows, nextId: nat, first: Run, lines: seq<Entry>,
                               again: Rows, nextAgain: nat, second: Run, linesAgain: seq<Entry>)
    requires Imports(env, rows, nextId, checks, first, lines) && (forall id :: id in rows ==> id < nextId)
    requires Extends(first.rows, again) && (forall id :: id in again ==> id < nextAgain)
    requires Imports(env.(refuses := refuses), again, nextAgain, checks, second, linesAgain) && i < |checks|
    ensures |lines| == |checks| == |linesAgain|
    ensures linesAgain[i].monitorId.Some? ==> lines[i].reason == StoreRefused
  {
    var later := env.(refuses := refuses);
    ImportSettles(env, rows, nextId, checks, first, lines, i);
    SettledStays(env, first.rows, again, checks[i], lines[i]);
    ImportCreatesNew(later, again, nextAgain, checks, second, linesAgain, i);
    SameKeys(env, refuses, again, checks[i]);
  }

  /** What the store refuses has no part in what an import looks for. */
  lemma SameKeys(env: Env, refuses: (Rows, Row) -> bool, rows: Rows, check: Check)
    ensures HasOrigin(env, rows, check) == HasOrigin(env.(refuses := refuses), rows, check)
    ensures HasTwin(env, rows, check) == HasTwin(env.(refuses := refuses), rows, check)
  {
    var later := env.(refuses := refuses);
    forall row: Row, k: string ensures HasKey(env, row, k) == HasKey(later, row, k) {
    }
    if env.translate(check).Build? {
      var t := env.translate(check);
      assert IdentityKey(env, t.checkType, t.url, t.name) == IdentityKey(later, t.checkType, t.url, t.name);
    }
  }

  /** And a check imported once is skipped for good, however its monitor was renamed or edited since. */
  lemma RenamedIsStillSkipped(env: Env, refuses: (Rows, Row) -> bool, checks: seq<Check>, i: nat,
                              rows: Rows, nextId: nat, first: Run, lines: seq<Entry>,
                              again: Rows, nextAgain: nat, second: Run, linesAgain: seq<Entry>)
    requires Imports(env, rows, nextId, checks, first, lines) && (forall id :: id in rows ==> id < nextId)
    requires forall id :: id in first.rows ==> id in again && again[id].origin == first.rows[id].origin
    requires forall id :: id in again ==> id < nextAgain
    requires Imports(env.(refuses := refuses), again, nextAgain, checks, second, linesAgain) && i < |checks|
    ensures |lines| == |checks| == |linesAgain|
    ensures lines[i].reason == Importer.Created || lines[i].reason == AlreadyImported ==>
              linesAgain[i].reason == AlreadyImported
  {
    var later := env.(refuses := refuses);
    OriginIsKept(env, rows, nextId, checks, first, lines, i);
    ImportFindsOrigin(later, again, nextAgain, checks, second, linesAgain, i);
    if HasOrigin(env, first.rows, checks[i]) {
      var id :| id in first.rows && first.rows[id].origin == Some(Origin(env.provider, env.digest(checks[i].sourceId)));
      assert id in again && again[id].origin == Some(Origin(later.provider, later.digest(checks[i].sourceId)));
    }
  }

  lemma OriginIsKept(env: Env, rows: Rows, nextId: nat, checks: seq<Check>, after: Run, lines: seq<Entry>, i: nat)
    requires Imports(env, rows, nextId, checks, after, lines) && (forall id :: id in rows ==> id < nextId) && i < |checks|
    ensures |lines| == |checks|
    ensures lines[i].reason == Importer.Created || lines[i].reason == AlreadyImported ==>
              HasOrigin(env, after.rows, checks[i])
  {
    var imported, existing :| LoadedImports(env, rows, imported) && Loaded(env, rows, existing)
      && ImportChecks(Importing(env, imported), Run(rows, nextId, map[], [], existing), checks) == (after, lines);
    ImportingSteps(env, imported);
    var before, here := WhenItComesTo(env, Importing(env, imported), Run(rows, nextId, map[], [], existing), checks, i);
    CheckOrigin(env, imported, before, checks[i]);
    if HasOrigin(env, here.rows, checks[i]) {
      var id :| id in here.rows && here.rows[id].origin == Some(Origin(env.provider, env.digest(checks[i].sourceId)));
      assert id in after.rows && after.rows[id].origin == here.rows[id].origin;
    }
  }

  lemma CheckOrigin(env: Env, imported: Index, w: Run, check: Check)
    requires Live(env, w) && ImportsLive(env, w.rows, imported)
    ensures var (after, entry) := ImportCheck(env, imported, w, check);
            && (entry.reason == Importer.Created || entry.reason == AlreadyImported ==> HasOrigin(env, after.rows, check))
            && (env.digest(check.sourceId) in imported ==> entry.reason == AlreadyImported)
  {
    var changed := CheckCases(env, imported, w, check);
    CheckKeeps(env, imported, w, check);
    if env.digest(check.sourceId) in imported {
      assert HasOrigin(env, w.rows, check);
    } else if env.translate(check).Build? {
      StoreCases(env, Resolve(env, w, check.groupPath).after, check, RowOf(env, w, check), changed);
    }
  }

  lemma ImportFindsOrigin(env: Env, rows: Rows, nextId: nat, checks: seq<Check>, after: Run, lines: seq<Entry>, i: nat)
    requires Imports(env, rows, nextId, checks, after, lines) && (forall id :: id in rows ==> id < nextId) && i < |checks|
    ensures |lines| == |checks| && (HasOrigin(env, rows, checks[i]) ==> lines[i].reason == AlreadyImported)
  {
    var imported, existing :| LoadedImports(env, rows, imported) && Loaded(env, rows, existing)
      && ImportChecks(Importing(env, imported), Run(rows, nextId, map[], [], existing), checks) == (after, lines);
    ImportingSteps(env, imported);
    var before, here := WhenItComesTo(env, Importing(env, imported), Run(rows, nextId, map[], [], existing), checks, i);
    CheckOrigin(env, imported, before, checks[i]);
  }
}
