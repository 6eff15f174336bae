/**
 * The migration engine: group paths, one check at a time, and the whole import in one transaction.
 */
module Importer {
  import opened Prelude
  import opened Text

  // ----- the monitors table -----

  /** `import_source` and `import_source_id`. */
  datatype Origin = Origin(provider: string, key: string)

  datatype Row = Row(checkType: string, url: string, name: string, parent: Option<nat>, origin: Option<Origin>,
                     paused: bool)

  type Rows = map<nat, Row>

  type Index = map<string, nat>

  // ----- the snapshot -----

  datatype Check = Check(sourceId: string, groupPath: seq<string>, paused: bool)

  /** What translation and Vigil's own rules make of a check. */
  datatype Translation =
    | Unmapped
    | Refused
    | Build(checkType: string, url: string, name: string, changed: bool)

  /**
   * What the engine calls out to: the translation of a check, the digest of a source id, whether the
   * database refuses a row, and how text is folded for comparison, clipped to a name and made of an id.
   */
  datatype Env = Env(provider: string, translate: Check -> Translation, digest: string -> string,
                     refuses: (Rows, Row) -> bool, fold: string -> string, clip: string -> string,
                     idText: nat -> string)

  // ----- report lines -----

  datatype Kind = Monitor | Group | Other

  datatype Outcome = Imported | Transformed | Skipped | Unsupported

  /** Why a line says what it says; the source spells these out in its detail text. */
  datatype Reason = AlreadyImported | NotMapped | RulesRefuse | SameMonitor | StoreRefused | Created | Reused | Elsewhere

  datatype Entry = Entry(kind: Kind, sourceId: string, outcome: Outcome, reason: Reason, monitorId: Option<nat>)

  datatype Totals = Totals(imported: nat, transformed: nat, skipped: nat, unsupported: nat, monitorsCreated: nat)

  function Lines(entries: seq<Entry>, outcome: Outcome): nat {
    if entries == [] then 0
    else
      var last := |entries| - 1;
      Lines(entries[..last], outcome) + (if entries[last].outcome == outcome then 1 else 0)
  }

  /** Lines that carry a monitor id. */
  function Carried(entries: seq<Entry>): nat {
    if entries == [] then 0
    else
      var last := |entries| - 1;
      Carried(entries[..last]) + (if entries[last].monitorId.Some? then 1 else 0)
  }

  /** The totals are counts of the lines, taken once at the end. */
  method TotalsOf(entries: seq<Entry>) returns (t: Totals)
    ensures t.imported == Lines(entries, Imported) && t.transformed == Lines(entries, Transformed)
    ensures t.skipped == Lines(entries, Skipped) && t.unsupported == Lines(entries, Unsupported)
    ensures t.monitorsCreated == Carried(entries)
    ensures t.imported + t.transformed + t.skipped + t.unsupported == |entries|
  {
    t := Totals(0, 0, 0, 0, 0);
    for i := 0 to |entries|
      invariant t.imported == Lines(entries[..i], Imported) && t.transformed == Lines(entries[..i], Transformed)
      invariant t.skipped == Lines(entries[..i], Skipped) && t.unsupported == Lines(entries[..i], Unsupported)
      invariant t.monitorsCreated == Carried(entries[..i])
      invariant t.imported + t.transformed + t.skipped + t.unsupported == i
    {
      var entry := entries[i];
      assert entries[..i + 1][..i] == entries[..i];
      match entry.outcome {
        case Imported => t := t.(imported := t.imported + 1);
        case Transformed => t := t.(transformed := t.transformed + 1);
        case Skipped => t := t.(skipped := t.skipped + 1);
        case Unsupported => t := t.(unsupported := t.unsupported + 1);
      }
      if entry.monitorId.Some? {
        t := t.(monitorsCreated := t.monitorsCreated + 1);
      }
    }
    assert entries[..|entries|] == entries;
  }

  // ----- keys -----

  function IdentityKey(env: Env, checkType: string, url: string, name: string): string {
    Join([checkType, env.fold(url), env.fold(name)], '\0')
  }

  function GroupKey(env: Env, parent: Option<nat>, name: string): string {
    Join(["group", if parent.None? then "-" else env.idText(parent.value), env.fold(name)], '\0')
  }

  function PathKey(path: seq<string>): string { Join(path, '/') }

  // ----- the import, step by step -----

  /** An insert in a savepoint: the unique index on origins, and whatever else the database refuses. */
  function Insert(env: Env, rows: Rows, id: nat, row: Row): Option<Rows> {
    if env.refuses(rows, row) || (row.origin.Some? && exists r :: r in rows && rows[r].origin == row.origin) then None
    else Some(rows[id := row])
  }

  /** Everything an import changes: the table, the next id the database will hand out, and the engine's maps. */
  datatype Run = Run(rows: Rows, nextId: nat, byPath: Index, groups: seq<Entry>, existing: Index)

  function GroupEntry(key: string, reason: Reason, id: Option<nat>): Entry {
    Entry(Group, key, Imported, reason, id)
  }

  function GroupRow(name: string, parent: Option<nat>): Row { Row("group", name, name, parent, None, false) }

  datatype Resolved = Found(after: Run, id: Option<nat>) | Failed(nextId: nat)

  /** One segment of a path, below `parent`: blank, cached, reused, created or refused. */
  function Segment(env: Env, w: Run, path: seq<string>, depth: nat, parent: Option<nat>): Resolved
    requires depth < |path|
  {
    var name, key := env.clip(path[depth]), PathKey(path[..depth + 1]);
    if name == "" then Found(w, parent)
    else if key in w.byPath then Found(w, Some(w.byPath[key]))
    else if GroupKey(env, parent, name) in w.existing then
      var reused := w.existing[GroupKey(env, parent, name)];
      Found(Noted(w, key, reused, GroupEntry(key, Reused, None)), Some(reused))
    else
      match Insert(env, w.rows, w.nextId, GroupRow(name, parent))
      case None => Failed(w.nextId + 1)
      case Some(rows) =>
        Found(Noted(w.(rows := rows, nextId := w.nextId + 1), key, w.nextId, GroupEntry(key, Created, Some(w.nextId))),
              Some(w.nextId))
  }

  /** The segments of a path from `depth` on. */
  function ResolveFrom(env: Env, w: Run, path: seq<string>, depth: nat, parent: Option<nat>): Resolved
    requires depth <= |path|
    decreases |path| - depth
  {
    if depth == |path| then Found(w, parent)
    else
      match Segment(env, w, path, depth, parent)
      case Failed(nextId) => Failed(nextId)
      case Found(after, id) => ResolveFrom(env, after, path, depth + 1, id)
  }

  /** A path segment resolved: cached, with its line. */
  function Noted(w: Run, key: string, id: nat, entry: Entry): Run {
    w.(byPath := w.byPath[key := id], groups := w.groups + [entry])
  }

  /** What came of a path: where it leaves the import, its innermost group, and whether the store refused it. */
  datatype Placed = Placed(after: Run, id: Option<nat>, failed: bool)

  /** A path resolved in a savepoint: all of it, or nothing but the ids it used up. */
  function Resolve(env: Env, w: Run, path: seq<string>): Placed {
    match ResolveFrom(env, w, path, 0, None)
    case Found(after, id) => Placed(after, id, false)
    case Failed(nextId) => Placed(w.(nextId := nextId), None, true)
  }

  function CheckEntry(check: Check, outcome: Outcome, reason: Reason, id: Option<nat>): Entry {
    Entry(Monitor, check.sourceId, outcome, reason, id)
  }

  /** One check: recorded already, unmapped, refused, a duplicate, refused by the store, or created. */
  function ImportCheck(env: Env, imported: Index, w: Run, check: Check): (Run, Entry) {
    if env.digest(check.sourceId) in imported then (w, CheckEntry(check, Skipped, AlreadyImported, None))
    else
      match env.translate(check)
      case Unmapped => (w, CheckEntry(check, Unsupported, NotMapped, None))
      case Refused => (Resolve(env, w, check.groupPath).after, CheckEntry(check, Skipped, RulesRefuse, None))
      case Build(checkType, url, name, changed) =>
        var placed := Resolve(env, w, check.groupPath);
        Store(env, placed.after, check, CheckRow(env, check, checkType, url, name, placed.id),
              changed || placed.id.Some? || placed.failed)
  }

  function CheckRow(env: Env, check: Check, checkType: string, url: string, name: string, parent: Option<nat>): Row {
    Row(checkType, url, name, parent, Some(Origin(env.provider, env.digest(check.sourceId))), false)
  }

  function Store(env: Env, w: Run, check: Check, row: Row, changed: bool): (Run, Entry) {
    var key := IdentityKey(env, row.checkType, row.url, row.name);
    if key in w.existing then (w, CheckEntry(check, Skipped, SameMonitor, None))
    else
      match Insert(env, w.rows, w.nextId, row)
      case None => (w.(nextId := w.nextId + 1), CheckEntry(check, Skipped, StoreRefused, None))
      case Some(rows) =>
        (w.(rows := rows[w.nextId := row.(paused := check.paused)], nextId := w.nextId + 1,
            existing := w.existing[key := w.nextId]),
         CheckEntry(check, if changed || check.paused then Transformed else Imported, Created, Some(w.nextId)))
  }

  type Step = (Run, Check) -> (Run, Entry)

  function Importing(env: Env, imported: Index): Step {
    (w: Run, check: Check) => ImportCheck(env, imported, w, check)
  }

  /** The checks in order, with one line each. */
  function ImportChecks(step: Step, w: Run, checks: seq<Check>): (r: (Run, seq<Entry>))
    ensures |r.1| == |checks|
    decreases |checks|
  {
    if checks == [] then (w, [])
    else
      var last := |checks| - 1;
      var (before, entries) := ImportChecks(step, w, checks[..last]);
      var (after, entry) := step(before, checks[last]);
      (after, entries + [entry])
  }

  // ----- what an import reads first, and what it reports last -----

  /** The keys a row answers to: its own, and for a group the one with its parent in it. */
  predicate HasKey(env: Env, row: Row, key: string) {
    || key == IdentityKey(env, row.checkType, row.url, row.name)
    || (row.checkType == "group" && key == GroupKey(env, row.parent, row.name))
  }

  /** Every entry names a live row that answers to its key. */
  ghost predicate NamesRows(env: Env, rows: Rows, existing: Index) {
    forall k :: k in existing ==> existing[k] in rows && HasKey(env, rows[existing[k]], k)
  }

  /** `loadExisting`: every key of every row, each naming a row that has it. */
  ghost predicate Loaded(env: Env, rows: Rows, existing: Index) {
    && NamesRows(env, rows, existing)
    && (forall id, k :: id in rows && HasKey(env, rows[id], k) ==> k in existing)
  }

  /** `loadImportedMonitors`: the digests recorded for this provider. */
  ghost predicate LoadedImports(env: Env, rows: Rows, imported: Index) {
    && (forall k :: k in imported ==> imported[k] in rows && rows[imported[k]].origin == Some(Origin(env.provider, k)))
    && (forall id, k :: id in rows && rows[id].origin == Some(Origin(env.provider, k)) ==> k in imported)
  }

  method LoadExisting(env: Env, rows: Rows) returns (byKey: Index)
    ensures Loaded(env, rows, byKey)
  {
    byKey := map[];
    var left := rows.Keys;
    while left != {}
      invariant left <= rows.Keys && NamesRows(env, rows, byKey)
      invariant forall id, k :: id in rows && id !in left && HasKey(env, rows[id], k) ==> k in byKey
      decreases left
    {
      var id :| id in left;
      var row := rows[id];
      byKey := byKey[IdentityKey(env, row.checkType, row.url, row.name) := id];
      if row.checkType == "group" {
        byKey := byKey[GroupKey(env, row.parent, row.name) := id];
      }
      left := left - {id};
    }
  }

  method LoadImported(env: Env, rows: Rows) returns (byKey: Index)
    ensures LoadedImports(env, rows, byKey)
  {
    byKey := map[];
    var left := rows.Keys;
    while left != {}
      invariant left <= rows.Keys
      invariant forall k :: k in byKey ==> byKey[k] in rows && rows[byKey[k]].origin == Some(Origin(env.provider, k))
      invariant forall id, k :: id in rows && id !in left && rows[id].origin == Some(Origin(env.provider, k)) ==> k in byKey
      decreases left
    {
      var id :| id in left;
      var origin := rows[id].origin;
      if origin.Some? && origin.value.provider == env.provider {
        byKey := byKey[origin.value.key := id];
      }
      left := left - {id};
    }
  }

  /** `checkEntries`: the line of each source id, the last one if it came twice. */
  function ById(checks: seq<Check>, lines: seq<Entry>): (m: map<string, Entry>)
    requires |checks| == |lines|
    ensures forall c :: c in checks ==> c.sourceId in m
  {
    if checks == [] then map[]
    else
      var last := |checks| - 1;
      ById(checks[..last], lines[..last])[checks[last].sourceId := lines[last]]
  }

  /** The check lines of the report: one for each check, found by its source id. */
  function CheckLines(checks: seq<Check>, lines: seq<Entry>): seq<Entry>
    requires |checks| == |lines|
  {
    seq(|checks|, i requires 0 <= i < |checks| => ById(checks, lines)[checks[i].sourceId])
  }
}
