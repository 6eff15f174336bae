/**
 * The migration engine, statement by statement: group paths with their undo, one check at a time,
 * and the whole import in one transaction that a dry run rolls back.
 */
module ImportEngine {
  import opened Prelude
  import opened Importer
  import opened ImportIndex

  /** The cache without the keys a failed path added. */
  function Dropped(byPath: Index, added: seq<string>): Index {
    byPath - (set k | k in added)
  }

  lemma AddedOne(byPath: Index, before: Index, added: seq<string>, key: string, id: nat)
    requires Dropped(byPath, added) == before && key !in byPath
    ensures Dropped(byPath[key := id], added + [key]) == before
  {
    var after := Dropped(byPath[key := id], added + [key]);
    forall k ensures k in after <==> k in before {
      assert k in before <==> k in byPath && k !in added;
    }
  }

  lemma DroppedOne(byPath: Index, added: seq<string>, i: nat)
    requires i < |added|
    ensures Dropped(byPath - {added[i]}, added[i + 1..]) == Dropped(byPath, added[i..])
  {
    assert added[i..] == [added[i]] + added[i + 1..];
  }

  class Migration {
    var rows: Rows
    var nextId: nat
    var byPath: Index
    var groups: seq<Entry>
    var existing: Index

    constructor (rows: Rows, nextId: nat)
      ensures this.rows == rows && this.nextId == nextId && byPath == map[] && groups == [] && existing == map[]
    {
      this.rows, this.nextId, byPath, groups, existing := rows, nextId, map[], [], map[];
    }

    function Now(): Run
      reads this
    {
      Run(rows, nextId, byPath, groups, existing)
    }

    /** One turn of the loop over a path's segments; `added` collects the keys this path has cached. */
    method PlaceSegment(env: Env, path: seq<string>, depth: nat, parent: Option<nat>, added: seq<string>)
      returns (id: Option<nat>, failed: bool, more: seq<string>)
      requires depth < |path|
      modifies this
      ensures existing == old(existing) && old(groups) <= groups
      ensures Dropped(byPath, more) == Dropped(old(byPath), added)
      ensures Segment(env, old(Now()), path, depth, parent) == if failed then Failed(nextId) else Found(Now(), id)
    {
      var name, key := env.clip(path[depth]), PathKey(path[..depth + 1]);
      id, failed, more := parent, false, added;
      if name == "" {
        return;
      }
      if key in byPath {
        id := Some(byPath[key]);
        return;
      }
      if GroupKey(env, parent, name) in existing {
        var reused := existing[GroupKey(env, parent, name)];
        AddedOne(byPath, Dropped(byPath, added), added, key, reused);
        byPath, more, groups := byPath[key := reused], added + [key], groups + [GroupEntry(key, Reused, None)];
        id := Some(reused);
        return;
      }
      var stored := Insert(env, rows, nextId, GroupRow(name, parent));
      var made := nextId;
      nextId := nextId + 1;
      if stored.None? {
        failed := true;
        return;
      }
      rows := stored.value;
      AddedOne(byPath, Dropped(byPath, added), added, key, made);
      byPath, more, groups := byPath[key := made], added + [key], groups + [GroupEntry(key, Created, Some(made))];
      id := Some(made);
    }

    /**
     * `GroupTree.resolve` inside its savepoint. When a segment fails the database undoes the table;
     * the cached ids and the lines are undone here.
     */
    method ResolvePath(env: Env, path: seq<string>) returns (id: Option<nat>, failed: bool)
      modifies this
      ensures Placed(Now(), id, failed) == Resolve(env, old(Now()), path)
    {
      var saved, entriesBefore := rows, |groups|;
      var added: seq<string> := [];
      id, failed := None, false;
      for depth := 0 to |path|
        invariant existing == old(existing) && old(groups) <= groups && Dropped(byPath, added) == old(byPath)
        invariant !failed && entriesBefore == |old(groups)|
        invariant ResolveFrom(env, Now(), path, depth, id) == ResolveFrom(env, old(Now()), path, 0, None)
      {
        id, failed, added := PlaceSegment(env, path, depth, id, added);
        if failed {
          break;
        }
      }
      if failed {
        rows, id := saved, None;
        UndoPath(added, entriesBefore);
      }
    }

    /** The catch block: forget the cached ids and drop the lines. */
    method UndoPath(added: seq<string>, entriesBefore: nat)
      requires entriesBefore <= |groups|
      modifies this`byPath, this`groups
      ensures byPath == Dropped(old(byPath), added) && groups == old(groups)[..entriesBefore]
    {
      assert added[0..] == added;
      for i := 0 to |added|
        invariant Dropped(byPath, added[i..]) == Dropped(old(byPath), added) && groups == old(groups)
      {
        DroppedOne(byPath, added, i);
        byPath := byPath - {added[i]};
      }
      assert Dropped(byPath, added[|added|..]) == byPath;
      groups := groups[..entriesBefore];
    }

    method ImportOne(env: Env, imported: Index, check: Check) returns (entry: Entry)
      modifies this
      ensures (Now(), entry) == ImportCheck(env, imported, old(Now()), check)
    {
      if env.digest(check.sourceId) in imported {
        return CheckEntry(check, Skipped, AlreadyImported, None);
      }
      var translated := env.translate(check);
      if translated.Unmapped? {
        return CheckEntry(check, Unsupported, NotMapped, None);
      }
      var parent, failed := ResolvePath(env, check.groupPath);
      if translated.Refused? {
        return CheckEntry(check, Skipped, RulesRefuse, None);
      }
      var row := CheckRow(env, check, translated.checkType, translated.url, translated.name, parent);
      entry := StoreMonitor(env, check, row, translated.changed || parent.Some? || failed);
    }

    method StoreMonitor(env: Env, check: Check, row: Row, changed: bool) returns (entry: Entry)
      modifies this
      ensures (Now(), entry) == Store(env, old(Now()), check, row, changed)
    {
      var key := IdentityKey(env, row.checkType, row.url, row.name);
      if key in existing {
        return CheckEntry(check, Skipped, SameMonitor, None);
      }
      var stored := Insert(env, rows, nextId, row);
      var made := nextId;
      nextId := nextId + 1;
      if stored.None? {
        return CheckEntry(check, Skipped, StoreRefused, None);
      }
      rows := stored.value[made := row.(paused := check.paused)];
      existing := existing[key := made];
      return CheckEntry(check, if changed || check.paused then Transformed else Imported, Created, Some(made));
    }

    /** The loop over the checks, keeping each one's line under its source id. */
    method ImportAll(env: Env, imported: Index, checks: seq<Check>)
      returns (checkEntries: map<string, Entry>, ghost lines: seq<Entry>)
      modifies this
      ensures (Now(), lines) == ImportChecks(Importing(env, imported), old(Now()), checks) && |lines| == |checks|
      ensures checkEntries == ById(checks, lines)
    {
      checkEntries, lines := map[], [];
      ghost var step := Importing(env, imported);
      for i := 0 to |checks|
        invariant |lines| == i && (Now(), lines) == ImportChecks(step, old(Now()), checks[..i])
        invariant checkEntries == ById(checks[..i], lines)
      {
        ghost var before := Now();
        var entry := ImportOne(env, imported, checks[i]);
        assert (Now(), entry) == step(before, checks[i]);
        assert checks[..i + 1][..i] == checks[..i] && (lines + [entry])[..i] == lines;
        checkEntries := checkEntries[checks[i].sourceId := entry];
        lines := lines + [entry];
      }
      assert checks[..|checks|] == checks;
    }

    /**
     * `importSnapshot`. A dry run does everything and then rolls the table back; the report is made
     * after that, from what was noted on the way. Unless two groups of the table share a key, it is the
     * report of every import of this snapshot into this table, dry or not.
     */
    method ImportSnapshot(env: Env, checks: seq<Check>, extras: seq<Entry>, dryRun: bool)
      returns (entries: seq<Entry>, totals: Totals, ghost known: Index, ghost imports: Index)
      modifies this
      ensures Loaded(env, old(rows), known) && LoadedImports(env, old(rows), imports)
      ensures NoTwins(env, old(rows)) ==>
                forall k, i :: Loaded(env, old(rows), k) && LoadedImports(env, old(rows), i) ==>
                  entries == Report(env, old(rows), old(nextId), checks, extras, k, i)
      ensures rows == if dryRun then old(rows) else TableAfter(env, old(rows), old(nextId), checks, known, imports)
      ensures entries == Report(env, old(rows), old(nextId), checks, extras, known, imports)
      ensures totals.monitorsCreated == Carried(entries)
      ensures totals.imported + totals.transformed + totals.skipped + totals.unsupported == |entries|
    {
      var saved := rows;
      existing := LoadExisting(env, rows);
      var imported := LoadImported(env, rows);
      byPath, groups, known, imports := map[], [], existing, imported;
      ghost var lines;
      var checkEntries;
      checkEntries, lines := ImportAll(env, imported, checks);
      if dryRun {
        rows := saved;
      }
      entries := ReportLines(checks, checkEntries, lines);
      entries := entries + groups + extras;
      if NoTwins(env, old(rows)) {
        forall k, i | Loaded(env, old(rows), k) && LoadedImports(env, old(rows), i)
          ensures entries == Report(env, old(rows), old(nextId), checks, extras, k, i)
        {
          ReportIsDecided(env, old(rows), old(nextId), checks, extras, known, imports, k, i);
        }
      }
      totals := TotalsOf(entries);
    }
  }

  method ReportLines(checks: seq<Check>, checkEntries: map<string, Entry>, ghost lines: seq<Entry>)
    returns (entries: seq<Entry>)
    requires |lines| == |checks| && checkEntries == ById(checks, lines)
    ensures entries == CheckLines(checks, lines)
  {
    entries := [];
    for i := 0 to |checks|
      invariant |entries| == i && forall k :: 0 <= k < i ==> entries[k] == checkEntries[checks[k].sourceId]
    {
      entries := entries + [checkEntries[checks[i].sourceId]];
    }
  }
}
