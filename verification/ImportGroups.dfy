/**
 * Group paths: which of them share a cache entry, which of them stand in a table, and when an import
 * creates no group.
 */
module ImportGroups {
  import opened Prelude
  import opened Text
  import opened Importer
  import opened ImporterLaws
  import opened ImportIndex

  // ----- one cache entry for two paths -----

  /** Two paths share a cache entry exactly when they are the same once every segment is split at its slashes. */
  lemma SharedKeyIff(a: seq<string>, b: seq<string>)
    requires a != [] && b != []
    ensures PathKey(a) == PathKey(b) <==> Flatten(a, '/') == Flatten(b, '/')
  {
    JoinsAlike(a, b, '/');
  }

  lemma {:induction false} FlattenPlain(parts: seq<string>)
    requires Lacks(parts, '/')
    ensures Flatten(parts, '/') == parts
    decreases |parts|
  {
    if parts != [] {
      SplitPlain(parts[0], '/');
      FlattenPlain(parts[1..]);
      assert parts == [parts[0]] + parts[1..];
    }
  }

  ghost predicate Within(byPath: Index, more: Index) {
    forall k :: k in byPath ==> k in more && more[k] == byPath[k]
  }

  lemma SegmentOnlyAdds(env: Env, w: Run, path: seq<string>, depth: nat, parent: Option<nat>)
    requires depth < |path|
    ensures var s := Segment(env, w, path, depth, parent);
            s.Found? ==>
              && Within(w.byPath, s.after.byPath)
              && (env.clip(path[depth]) != "" ==>
                    PathKey(path[..depth + 1]) in s.after.byPath
                    && s.id == Some(s.after.byPath[PathKey(path[..depth + 1])]))
  {
  }

  lemma {:induction false} PathOnlyAdds(env: Env, w: Run, path: seq<string>, depth: nat, parent: Option<nat>)
    requires depth <= |path|
    ensures var r := ResolveFrom(env, w, path, depth, parent);
            r.Found? ==>
              && Within(w.byPath, r.after.byPath)
              && (depth < |path| && env.clip(path[|path| - 1]) != "" ==>
                    PathKey(path) in r.after.byPath && r.id == Some(r.after.byPath[PathKey(path)]))
    decreases |path| - depth
  {
    if depth < |path| {
      SegmentOnlyAdds(env, w, path, depth, parent);
      var s := Segment(env, w, path, depth, parent);
      if s.Found? {
        PathOnlyAdds(env, s.after, path, depth + 1, s.id);
      }
      assert path[..|path|] == path;
    }
  }

  /**
   * A path placed after another that shares its entry lands in the other's group, whatever happened
   * in between; only an outer segment the store refuses can leave it without one.
   */
  lemma SharedKeyIsShared(env: Env, w: Run, a: seq<string>, later: Run, b: seq<string>)
    requires a != [] && b != [] && Flatten(a, '/') == Flatten(b, '/')
    requires env.clip(a[|a| - 1]) != "" && env.clip(b[|b| - 1]) != ""
    requires !Resolve(env, w, a).failed && Within(Resolve(env, w, a).after.byPath, later.byPath)
    ensures Resolve(env, w, a).id.Some?
    ensures var placed := Resolve(env, later, b); placed.failed || placed.id == Resolve(env, w, a).id
  {
    SharedKeyIff(a, b);
    PathOnlyAdds(env, w, a, 0, None);
    PathOnlyAdds(env, later, b, 0, None);
  }

  /** The path of this check is asked for: it is neither recorded already nor unmapped. */
  predicate Asks(env: Env, imported: Index, check: Check) {
    env.digest(check.sourceId) !in imported && !env.translate(check).Unmapped?
  }

  /** The import when it comes to check `i`. */
  function Before(env: Env, imported: Index, w: Run, checks: seq<Check>, i: nat): Run
    requires i <= |checks|
  {
    ImportChecks(Importing(env, imported), w, checks[..i]).0
  }

  lemma BeforeNext(env: Env, imported: Index, w: Run, checks: seq<Check>, i: nat)
    requires i < |checks|
    ensures Before(env, imported, w, checks, i + 1)
         == ImportCheck(env, imported, Before(env, imported, w, checks, i), checks[i]).0
  {
    assert checks[..i + 1][..i] == checks[..i];
  }

  /** The path of check `i` was asked for, and the store refused none of it. */
  ghost predicate PlacedAt(env: Env, imported: Index, w: Run, checks: seq<Check>, i: nat) {
    i < |checks| && Asks(env, imported, checks[i])
    && !Resolve(env, Before(env, imported, w, checks, i), checks[i].groupPath).failed
  }

  /** Nothing an import does takes an entry back. */
  lemma CheckOnlyAdds(env: Env, imported: Index, w: Run, check: Check)
    ensures var after, placed := ImportCheck(env, imported, w, check).0, Resolve(env, w, check.groupPath).after;
            && Within(w.byPath, after.byPath)
            && (Asks(env, imported, check) ==> after.byPath == placed.byPath)
  {
    PathOnlyAdds(env, w, check.groupPath, 0, None);
    var changed := CheckCases(env, imported, w, check);
    if env.translate(check).Build? {
      StoreCases(env, Resolve(env, w, check.groupPath).after, check, RowOf(env, w, check), changed);
    }
  }

  lemma {:induction false} BeforeOnlyAdds(env: Env, imported: Index, w: Run, checks: seq<Check>, i: nat, j: nat)
    requires i <= j <= |checks|
    ensures Within(Before(env, imported, w, checks, i).byPath, Before(env, imported, w, checks, j).byPath)
    decreases j
  {
    if i < j {
      BeforeOnlyAdds(env, imported, w, checks, i, j - 1);
      BeforeNext(env, imported, w, checks, j - 1);
      CheckOnlyAdds(env, imported, Before(env, imported, w, checks, j - 1), checks[j - 1]);
    }
  }

  /** So two checks of one import whose paths share an entry are put in one group. */
  lemma ChecksShareGroup(env: Env, imported: Index, w: Run, checks: seq<Check>, i: nat, j: nat)
    requires i < j && PlacedAt(env, imported, w, checks, i) && PlacedAt(env, imported, w, checks, j)
    requires checks[i].groupPath != [] && checks[j].groupPath != []
    requires Flatten(checks[i].groupPath, '/') == Flatten(checks[j].groupPath, '/')
    requires env.clip(checks[i].groupPath[|checks[i].groupPath| - 1]) != ""
    requires env.clip(checks[j].groupPath[|checks[j].groupPath| - 1]) != ""
    ensures GroupOf(env, imported, w, checks, i).Some?
    ensures GroupOf(env, imported, w, checks, i) == GroupOf(env, imported, w, checks, j)
  {
    var before := Before(env, imported, w, checks, i);
    BeforeNext(env, imported, w, checks, i);
    CheckOnlyAdds(env, imported, before, checks[i]);
    BeforeOnlyAdds(env, imported, w, checks, i + 1, j);
    SharedKeyIsShared(env, before, checks[i].groupPath, Before(env, imported, w, checks, j), checks[j].groupPath);
  }

  /** The group check `i` is put in. */
  function GroupOf(env: Env, imported: Index, w: Run, checks: seq<Check>, i: nat): Option<nat>
    requires i < |checks|
  {
    Resolve(env, Before(env, imported, w, checks, i), checks[i].groupPath).id
  }

  // ----- paths that stand in a table -----

  /** Following `path` from group to group by name leads to `id`; blank segments lead nowhere new. */
  ghost predicate Reaches(env: Env, rows: Rows, path: seq<string>, id: Option<nat>)
    decreases |path|
  {
    if path == [] then id == None
    else
      var last := |path| - 1;
      if env.clip(path[last]) == "" then Reaches(env, rows, path[..last], id)
      else
        id.Some? && id.value in rows && exists parent :: IsChild(env, rows, path, id.value, parent)
  }

  ghost predicate IsChild(env: Env, rows: Rows, path: seq<string>, id: nat, parent: Option<nat>)
    requires path != [] && id in rows
    decreases |path|, 0
  {
    var last := |path| - 1;
    Reaches(env, rows, path[..last], parent) && HasKey(env, rows[id], GroupKey(env, parent, env.clip(path[last])))
  }

  /** Every group of the path is there. */
  ghost predicate Stands(env: Env, rows: Rows, path: seq<string>) {
    exists id :: Reaches(env, rows, path, id)
  }

  /** The group one step up. */
  lemma ParentOn(env: Env, rows: Rows, path: seq<string>, id: Option<nat>) returns (parent: Option<nat>)
    requires path != [] && env.clip(path[|path| - 1]) != "" && Reaches(env, rows, path, id)
    ensures id.Some? && id.value in rows && Reaches(env, rows, path[..|path| - 1], parent)
    ensures HasKey(env, rows[id.value], GroupKey(env, parent, env.clip(path[|path| - 1])))
  {
    parent :| IsChild(env, rows, path, id.value, parent);
  }

  lemma {:induction false} ReachesOne(env: Env, rows: Rows, path: seq<string>, one: Option<nat>, other: Option<nat>)
    requires NoTwins(env, rows) && Reaches(env, rows, path, one) && Reaches(env, rows, path, other)
    ensures one == other
    decreases |path|
  {
    if path != [] {
      var last := |path| - 1;
      if env.clip(path[last]) == "" {
        ReachesOne(env, rows, path[..last], one, other);
      } else {
        var p := ParentOn(env, rows, path, one);
        var q := ParentOn(env, rows, path, other);
        ReachesOne(env, rows, path[..last], p, q);
      }
    }
  }

  lemma {:induction false} ReachesMore(env: Env, rows: Rows, more: Rows, path: seq<string>, id: Option<nat>)
    requires Extends(rows, more) && Reaches(env, rows, path, id)
    ensures Reaches(env, more, path, id)
    decreases |path|
  {
    if path != [] {
      var last := |path| - 1;
      if env.clip(path[last]) == "" {
        ReachesMore(env, rows, more, path[..last], id);
      } else {
        var p :| IsChild(env, rows, path, id.value, p);
        ReachesMore(env, rows, more, path[..last], p);
        assert IsChild(env, more, path, id.value, p);
      }
    }
  }

  /** The same names and ids, whatever is translated and refused. */
  ghost predicate SameNames(env: Env, other: Env) {
    env.fold == other.fold && env.clip == other.clip && env.idText == other.idText
  }

  lemma {:induction false} ReachesAlike(env: Env, other: Env, rows: Rows, path: seq<string>, id: Option<nat>)
    requires SameNames(env, other) && Reaches(env, rows, path, id)
    ensures Reaches(other, rows, path, id)
    decreases |path|
  {
    if path != [] {
      var last := |path| - 1;
      if env.clip(path[last]) == "" {
        ReachesAlike(env, other, rows, path[..last], id);
      } else {
        var p := ParentOn(env, rows, path, id);
        ReachesAlike(env, other, rows, path[..last], p);
        assert IsChild(other, rows, path, id.value, p);
      }
    }
  }

  /** One segment further. */
  lemma ReachesChild(env: Env, rows: Rows, path: seq<string>, depth: nat, parent: Option<nat>, id: nat)
    requires depth < |path| && env.clip(path[depth]) != ""
    requires Reaches(env, rows, path[..depth], parent)
    requires id in rows && HasKey(env, rows[id], GroupKey(env, parent, env.clip(path[depth])))
    ensures Reaches(env, rows, path[..depth + 1], Some(id))
  {
    assert path[..depth + 1][..depth] == path[..depth];
    assert IsChild(env, rows, path[..depth + 1], id, parent);
  }

  lemma ReachesBlank(env: Env, rows: Rows, path: seq<string>, depth: nat, parent: Option<nat>)
    requires depth < |path| && env.clip(path[depth]) == "" && Reaches(env, rows, path[..depth], parent)
    ensures Reaches(env, rows, path[..depth + 1], parent)
  {
    assert path[..depth + 1][..depth] == path[..depth];
  }

  /** Each of these paths leads to one group at most. */
  ghost predicate UniqueOn(env: Env, paths: iset<seq<string>>, rows: Rows) {
    forall q, a, b :: q in paths && Reaches(env, rows, q, a) && Reaches(env, rows, q, b) ==> a == b
  }

  /** In particular when no two rows share a group key. */
  lemma TwinFreeIsUnique(env: Env, paths: iset<seq<string>>, rows: Rows)
    requires NoTwins(env, rows)
    ensures UniqueOn(env, paths, rows)
  {
    forall q, a, b | q in paths && Reaches(env, rows, q, a) && Reaches(env, rows, q, b) ensures a == b {
      ReachesOne(env, rows, q, a, b);
    }
  }

  /** The group a standing segment names, when the path up to it leads one way. */
  lemma ChildOf(env: Env, paths: iset<seq<string>>, rows: Rows, path: seq<string>, depth: nat, parent: Option<nat>)
    returns (id: nat)
    requires UniqueOn(env, paths, rows) && depth < |path| && env.clip(path[depth]) != ""
    requires depth == 0 || path[..depth] in paths
    requires Reaches(env, rows, path[..depth], parent) && Stands(env, rows, path[..depth + 1])
    ensures id in rows && HasKey(env, rows[id], GroupKey(env, parent, env.clip(path[depth])))
    ensures Reaches(env, rows, path[..depth + 1], Some(id))
  {
    var q := path[..depth + 1];
    assert q[..depth] == path[..depth];
    var found :| Reaches(env, rows, q, found);
    var p := ParentOn(env, rows, q, found);
    id := found.value;
    assert p == parent;
  }

  lemma {:induction false} PrefixStands(env: Env, rows: Rows, path: seq<string>, depth: nat)
    requires Stands(env, rows, path) && depth <= |path|
    ensures Stands(env, rows, path[..depth])
    decreases |path|
  {
    if depth == |path| {
      assert path[..depth] == path;
    } else {
      var last := |path| - 1;
      var id :| Reaches(env, rows, path, id);
      if env.clip(path[last]) == "" {
        assert Reaches(env, rows, path[..last], id);
      } else {
        var p := ParentOn(env, rows, path, id);
      }
      PrefixStands(env, rows, path[..last], depth);
      assert path[..last][..depth] == path[..depth];
    }
  }

  // ----- the paths of a snapshot -----

  /** Every leading part of every path in the snapshot. */
  ghost function PathsOf(checks: seq<Check>): iset<seq<string>> {
    iset i, d | 0 <= i < |checks| && 0 < d <= |checks[i].groupPath| :: checks[i].groupPath[..d]
  }

  /** No two of these paths share a cache entry. */
  ghost predicate KeysDistinct(paths: iset<seq<string>>) {
    forall p, q :: p in paths && q in paths && PathKey(p) == PathKey(q) ==> p == q
  }

  /** All leading parts of the path are among these. */
  ghost predicate Among(paths: iset<seq<string>>, path: seq<string>) {
    forall d :: 0 < d <= |path| ==> path[..d] in paths
  }

  /** In particular when no segment has a slash. */
  lemma PlainKeysDistinct(checks: seq<Check>)
    requires forall c :: c in checks ==> Lacks(c.groupPath, '/')
    ensures KeysDistinct(PathsOf(checks))
  {
    forall p, q | p in PathsOf(checks) && q in PathsOf(checks) && PathKey(p) == PathKey(q) ensures p == q {
      SharedKeyIff(p, q);
      FlattenPlain(p);
      FlattenPlain(q);
    }
  }

  /** Every cached path of the snapshot names the group it reaches in this table. */
  ghost predicate CacheReaches(env: Env, paths: iset<seq<string>>, rows: Rows, byPath: Index) {
    forall q :: q in paths && PathKey(q) in byPath ==> Reaches(env, rows, q, Some(byPath[PathKey(q)]))
  }

  lemma CacheOne(env: Env, paths: iset<seq<string>>, rows: Rows, byPath: Index, path: seq<string>, id: nat)
    requires KeysDistinct(paths) && path in paths && CacheReaches(env, paths, rows, byPath)
    requires Reaches(env, rows, path, Some(id))
    ensures CacheReaches(env, paths, rows, byPath[PathKey(path) := id])
  {
  }

  lemma CacheMore(env: Env, paths: iset<seq<string>>, rows: Rows, more: Rows, byPath: Index)
    requires CacheReaches(env, paths, rows, byPath) && Extends(rows, more)
    ensures CacheReaches(env, paths, more, byPath)
  {
    forall q | q in paths && PathKey(q) in byPath ensures Reaches(env, more, q, Some(byPath[PathKey(q)])) {
      ReachesMore(env, rows, more, q, Some(byPath[PathKey(q)]));
    }
  }

  // ----- what a placed path leaves standing -----

  ghost predicate Building(env: Env, paths: iset<seq<string>>, w: Run) {
    Live(env, w) && CacheReaches(env, paths, w.rows, w.byPath)
  }

  lemma SegmentBuilds(env: Env, paths: iset<seq<string>>, w: Run, path: seq<string>, depth: nat, parent: Option<nat>)
    requires KeysDistinct(paths) && Building(env, paths, w) && depth < |path| && path[..depth + 1] in paths
    requires Reaches(env, w.rows, path[..depth], parent)
    ensures var s := Segment(env, w, path, depth, parent);
            s.Found? ==> CacheReaches(env, paths, s.after.rows, s.after.byPath)
                         && Reaches(env, s.after.rows, path[..depth + 1], s.id)
  {
    var name, q := env.clip(path[depth]), path[..depth + 1];
    var group := GroupKey(env, parent, name);
    if name == "" {
      ReachesBlank(env, w.rows, path, depth, parent);
    } else if PathKey(q) !in w.byPath {
      if group in w.existing {
        var id := w.existing[group];
        ReachesChild(env, w.rows, path, depth, parent, id);
        CacheOne(env, paths, w.rows, w.byPath, q, id);
      } else {
        var rows := w.rows[w.nextId := GroupRow(name, parent)];
        ReachesMore(env, w.rows, rows, path[..depth], parent);
        CacheMore(env, paths, w.rows, rows, w.byPath);
        ReachesChild(env, rows, path, depth, parent, w.nextId);
        CacheOne(env, paths, rows, w.byPath, q, w.nextId);
      }
    }
  }

  lemma {:induction false} PathBuilds(env: Env, paths: iset<seq<string>>, w: Run, path: seq<string>, depth: nat,
                                      parent: Option<nat>)
    requires KeysDistinct(paths) && Building(env, paths, w) && depth <= |path| && Among(paths, path)
    requires Reaches(env, w.rows, path[..depth], parent) && (parent.Some? ==> parent.value in w.rows)
    ensures var r := ResolveFrom(env, w, path, depth, parent);
            r.Found? ==> CacheReaches(env, paths, r.after.rows, r.after.byPath) && Reaches(env, r.after.rows, path, r.id)
    decreases |path| - depth
  {
    if depth == |path| {
      assert path[..depth] == path;
    } else {
      SegmentBuilds(env, paths, w, path, depth, parent);
      SegmentKeeps(env, w, path, depth, parent);
      var s := Segment(env, w, path, depth, parent);
      if s.Found? {
        PathBuilds(env, paths, s.after, path, depth + 1, s.id);
      }
    }
  }

  lemma CheckBuilds(env: Env, imported: Index, paths: iset<seq<string>>, w: Run, check: Check)
    requires KeysDistinct(paths) && Building(env, paths, w) && Among(paths, check.groupPath)
    ensures var after := ImportCheck(env, imported, w, check).0;
            && Building(env, paths, after) && Extends(w.rows, after.rows)
            && (Asks(env, imported, check) && !Resolve(env, w, check.groupPath).failed ==>
                  Stands(env, after.rows, check.groupPath))
  {
    var after := ImportCheck(env, imported, w, check).0;
    var placed := Resolve(env, w, check.groupPath);
    PathBuilds(env, paths, w, check.groupPath, 0, None);
    ResolveKeeps(env, w, check.groupPath);
    CheckKeeps(env, imported, w, check);
    assert StepOk(env, Importing(env, imported), w, check);
    assert CacheReaches(env, paths, placed.after.rows, placed.after.byPath);
    CheckAfterPath(env, imported, w, check);
    if Asks(env, imported, check) {
      CacheMore(env, paths, placed.after.rows, after.rows, placed.after.byPath);
      if !placed.failed {
        ReachesMore(env, placed.after.rows, after.rows, check.groupPath, placed.id);
      }
    }
  }

  /** What an import keeps of a path once it is resolved. */
  ghost predicate AfterPath(placed: Run, after: Run) {
    && after.byPath == placed.byPath && after.groups == placed.groups
    && Extends(placed.rows, after.rows) && Within(placed.existing, after.existing)
  }

  lemma StoreAfterPath(env: Env, w: Run, check: Check, row: Row, changed: bool)
    requires Live(env, w)
    ensures AfterPath(w, Store(env, w, check, row, changed).0)
  {
    StoreCases(env, w, check, row, changed);
  }

  /** A check that does not ask for its path changes nothing; after its path, a check only adds a row and its key. */
  lemma CheckAfterPath(env: Env, imported: Index, w: Run, check: Check)
    requires Live(env, w)
    ensures var after := ImportCheck(env, imported, w, check).0;
            if Asks(env, imported, check) then AfterPath(Resolve(env, w, check.groupPath).after, after) else after == w
  {
    ResolveKeeps(env, w, check.groupPath);
    var changed := CheckCases(env, imported, w, check);
    if env.translate(check).Build? {
      StoreAfterPath(env, Resolve(env, w, check.groupPath).after, check, RowOf(env, w, check), changed);
    }
  }

  lemma AmongSnapshot(checks: seq<Check>, i: nat)
    requires i < |checks|
    ensures Among(PathsOf(checks), checks[i].groupPath)
  {
  }

  /** Of the first `n` checks, every path that was placed stands. */
  ghost predicate StandSoFar(env: Env, imported: Index, w: Run, checks: seq<Check>, n: nat, rows: Rows) {
    forall i: nat :: i < n && PlacedAt(env, imported, w, checks, i) ==> Stands(env, rows, checks[i].groupPath)
  }

  lemma StandSoFarNext(env: Env, imported: Index, w: Run, checks: seq<Check>, n: nat, rows: Rows, more: Rows)
    requires StandSoFar(env, imported, w, checks, n, rows) && Extends(rows, more)
    requires PlacedAt(env, imported, w, checks, n) ==> Stands(env, more, checks[n].groupPath)
    ensures StandSoFar(env, imported, w, checks, n + 1, more)
  {
    forall i: nat | i < n && PlacedAt(env, imported, w, checks, i) ensures Stands(env, more, checks[i].groupPath) {
      StandsMore(env, rows, more, checks[i].groupPath);
    }
  }

  lemma PlacedNext(env: Env, imported: Index, w: Run, checks: seq<Check>, n: nat, paths: iset<seq<string>>, before: Run)
    requires n < |checks| && paths == PathsOf(checks) && KeysDistinct(paths)
    requires before == Before(env, imported, w, checks, n) && Building(env, paths, before)
    requires Extends(w.rows, before.rows) && StandSoFar(env, imported, w, checks, n, before.rows)
    ensures var after := ImportCheck(env, imported, before, checks[n]).0;
            && Building(env, paths, after) && Extends(w.rows, after.rows)
            && StandSoFar(env, imported, w, checks, n + 1, after.rows)
  {
    AmongSnapshot(checks, n);
    CheckBuilds(env, imported, paths, before, checks[n]);
    StandSoFarNext(env, imported, w, checks, n, before.rows, ImportCheck(env, imported, before, checks[n]).0.rows);
  }

  lemma {:induction false} PlacedStands(env: Env, imported: Index, w: Run, checks: seq<Check>, n: nat)
    requires KeysDistinct(PathsOf(checks)) && Live(env, w) && w.byPath == map[] && n <= |checks|
    ensures var after := Before(env, imported, w, checks, n);
            && Building(env, PathsOf(checks), after) && Extends(w.rows, after.rows)
            && StandSoFar(env, imported, w, checks, n, after.rows)
  {
    if n > 0 {
      PlacedStands(env, imported, w, checks, n - 1);
      BeforeNext(env, imported, w, checks, n - 1);
      PlacedNext(env, imported, w, checks, n - 1, PathsOf(checks), Before(env, imported, w, checks, n - 1));
    }
  }

  lemma StandsMore(env: Env, rows: Rows, more: Rows, path: seq<string>)
    requires Stands(env, rows, path) && Extends(rows, more)
    ensures Stands(env, more, path)
  {
    var id :| Reaches(env, rows, path, id);
    ReachesMore(env, rows, more, path, id);
  }

  // ----- an import that creates no group -----

  /** Nothing made so far: every cached group was in the table, and every key of the table is still looked up the same. */
  ghost predicate Idle(env: Env, paths: iset<seq<string>>, rows: Rows, known: Index, w: Run) {
    CacheReaches(env, paths, rows, w.byPath) && Within(known, w.existing) && Carried(w.groups) == 0
  }

  /** A table in which the paths lead one way, and its index. */
  ghost predicate Read(env: Env, paths: iset<seq<string>>, rows: Rows, known: Index) {
    UniqueOn(env, paths, rows) && Loaded(env, rows, known)
  }

  lemma SegmentFinds(env: Env, paths: iset<seq<string>>, rows: Rows, known: Index, w: Run, path: seq<string>, depth: nat,
                     parent: Option<nat>)
    requires KeysDistinct(paths) && Read(env, paths, rows, known) && Idle(env, paths, rows, known, w)
    requires depth < |path| && Among(paths, path)
    requires Reaches(env, rows, path[..depth], parent) && Stands(env, rows, path[..depth + 1])
    ensures var s := Segment(env, w, path, depth, parent);
            && s.Found? && Idle(env, paths, rows, known, s.after) && Reaches(env, rows, path[..depth + 1], s.id)
            && s.after.existing == w.existing && s.after.rows == w.rows && s.after.nextId == w.nextId
  {
    var name, q := env.clip(path[depth]), path[..depth + 1];
    if name == "" {
      ReachesBlank(env, rows, path, depth, parent);
    } else if PathKey(q) !in w.byPath {
      var id := ChildOf(env, paths, rows, path, depth, parent);
      var found := known[GroupKey(env, parent, name)];
      ReachesChild(env, rows, path, depth, parent, found);
      assert found == id;
      CacheOne(env, paths, rows, w.byPath, q, id);
      CarriedPush(w.groups, GroupEntry(PathKey(q), Reused, None));
    }
  }

  lemma {:induction false} PathFinds(env: Env, paths: iset<seq<string>>, rows: Rows, known: Index, w: Run,
                                     path: seq<string>, depth: nat, parent: Option<nat>)
    requires KeysDistinct(paths) && Read(env, paths, rows, known) && Idle(env, paths, rows, known, w)
    requires depth <= |path| && Among(paths, path)
    requires Reaches(env, rows, path[..depth], parent) && Stands(env, rows, path)
    ensures var r := ResolveFrom(env, w, path, depth, parent);
            && r.Found? && Idle(env, paths, rows, known, r.after) && r.after.existing == w.existing
            && Reaches(env, rows, path, r.id) && r.after.rows == w.rows && r.after.nextId == w.nextId
    decreases |path| - depth
  {
    assert path[..|path|] == path;
    if depth < |path| {
      PrefixStands(env, rows, path, depth + 1);
      SegmentFinds(env, paths, rows, known, w, path, depth, parent);
      var s := Segment(env, w, path, depth, parent);
      PathFinds(env, paths, rows, known, s.after, path, depth + 1, s.id);
    }
  }

  /** Every path the import will ask for stands. */
  ghost predicate AllStand(env: Env, imported: Index, rows: Rows, checks: seq<Check>) {
    forall c :: c in checks && Asks(env, imported, c) ==> Stands(env, rows, c.groupPath)
  }

  lemma WithinOn(a: Index, b: Index, c: Index)
    requires Within(a, b) && Within(b, c)
    ensures Within(a, c)
  {
  }

  lemma CheckFinds(env: Env, imported: Index, paths: iset<seq<string>>, rows: Rows, known: Index, w: Run, check: Check)
    requires KeysDistinct(paths) && Read(env, paths, rows, known) && Idle(env, paths, rows, known, w) && Live(env, w)
    requires Among(paths, check.groupPath) && (Asks(env, imported, check) ==> Stands(env, rows, check.groupPath))
    ensures Idle(env, paths, rows, known, ImportCheck(env, imported, w, check).0)
  {
    CheckAfterPath(env, imported, w, check);
    if Asks(env, imported, check) {
      PathFinds(env, paths, rows, known, w, check.groupPath, 0, None);
      var placed, after := Resolve(env, w, check.groupPath).after, ImportCheck(env, imported, w, check).0;
      WithinOn(known, placed.existing, after.existing);
    }
  }

  lemma {:induction false} StandingIsFound(env: Env, imported: Index, rows: Rows, nextId: nat, known: Index,
                                           checks: seq<Check>, n: nat)
    requires KeysDistinct(PathsOf(checks)) && Read(env, PathsOf(checks), rows, known) && n <= |checks|
    requires (forall id :: id in rows ==> id < nextId) && AllStand(env, imported, rows, checks[..n])
    ensures var after := Before(env, imported, Run(rows, nextId, map[], [], known), checks, n);
            Idle(env, PathsOf(checks), rows, known, after) && Live(env, after)
  {
    var w := Run(rows, nextId, map[], [], known);
    if n > 0 {
      assert forall c :: c in checks[..n - 1] ==> c in checks[..n];
      StandingIsFound(env, imported, rows, nextId, known, checks, n - 1);
      BeforeNext(env, imported, w, checks, n - 1);
      AmongSnapshot(checks, n - 1);
      var before := Before(env, imported, w, checks, n - 1);
      assert checks[n - 1] in checks[..n];
      CheckFinds(env, imported, PathsOf(checks), rows, known, before, checks[n - 1]);
      CheckKeeps(env, imported, before, checks[n - 1]);
      assert StepOk(env, Importing(env, imported), before, checks[n - 1]);
    }
  }

  // ----- an import that creates one -----

  /** The store refuses no group. */
  ghost predicate AcceptsGroups(env: Env) {
    forall rows, row: Row :: row.checkType == "group" ==> !env.refuses(rows, row)
  }

  /** No check is built under a key a group could answer to. */
  ghost predicate PlainKeys(env: Env) {
    forall check, parent, name :: env.translate(check).Build? ==> BuiltKey(env, check) != GroupKey(env, parent, name)
  }

  function BuiltKey(env: Env, check: Check): string
    requires env.translate(check).Build?
  {
    var t := env.translate(check);
    IdentityKey(env, t.checkType, t.url, t.name)
  }

  /** No key has been added under which a group would be looked up. */
  ghost predicate OnlyKnown(env: Env, known: Index, existing: Index) {
    forall parent, name :: GroupKey(env, parent, name) in existing ==> GroupKey(env, parent, name) in known
  }

  lemma SegmentGrows(env: Env, w: Run, path: seq<string>, depth: nat, parent: Option<nat>)
    requires AcceptsGroups(env) && depth < |path|
    ensures var s := Segment(env, w, path, depth, parent); s.Found? && Carried(w.groups) <= Carried(s.after.groups)
  {
    var key := PathKey(path[..depth + 1]);
    assert !env.refuses(w.rows, GroupRow(env.clip(path[depth]), parent));
    if GroupKey(env, parent, env.clip(path[depth])) in w.existing {
      CarriedPush(w.groups, GroupEntry(key, Reused, None));
    } else {
      CarriedPush(w.groups, GroupEntry(key, Importer.Created, Some(w.nextId)));
    }
  }

  lemma {:induction false} PathGrows(env: Env, w: Run, path: seq<string>, depth: nat, parent: Option<nat>)
    requires AcceptsGroups(env) && depth <= |path|
    ensures var r := ResolveFrom(env, w, path, depth, parent); r.Found? && Carried(w.groups) <= Carried(r.after.groups)
    decreases |path| - depth
  {
    if depth < |path| {
      SegmentGrows(env, w, path, depth, parent);
      var s := Segment(env, w, path, depth, parent);
      PathGrows(env, s.after, path, depth + 1, s.id);
    }
  }

  lemma SegmentMakes(env: Env, paths: iset<seq<string>>, rows: Rows, known: Index, w: Run, path: seq<string>, depth: nat,
                     parent: Option<nat>)
    requires AcceptsGroups(env) && Read(env, paths, rows, known) && Idle(env, paths, rows, known, w)
    requires OnlyKnown(env, known, w.existing) && depth < |path| && path[..depth + 1] in paths
    requires Reaches(env, rows, path[..depth], parent) && !Stands(env, rows, path[..depth + 1])
    ensures var s := Segment(env, w, path, depth, parent); s.Found? && Carried(s.after.groups) > 0
  {
    var name, q := env.clip(path[depth]), path[..depth + 1];
    if name == "" {
      ReachesBlank(env, rows, path, depth, parent);
      assert false;
    }
    assert PathKey(q) !in w.byPath;
    if GroupKey(env, parent, name) in w.existing {
      ReachesChild(env, rows, path, depth, parent, known[GroupKey(env, parent, name)]);
      assert false;
    }
    assert !env.refuses(w.rows, GroupRow(name, parent));
    CarriedPush(w.groups, GroupEntry(PathKey(q), Importer.Created, Some(w.nextId)));
  }

  lemma {:induction false} PathMakes(env: Env, paths: iset<seq<string>>, rows: Rows, known: Index, w: Run,
                                     path: seq<string>, depth: nat, parent: Option<nat>)
    requires AcceptsGroups(env) && KeysDistinct(paths) && Read(env, paths, rows, known) && Idle(env, paths, rows, known, w)
    requires OnlyKnown(env, known, w.existing) && depth <= |path| && Among(paths, path)
    requires Reaches(env, rows, path[..depth], parent) && !Stands(env, rows, path)
    ensures var r := ResolveFrom(env, w, path, depth, parent); r.Found? && Carried(r.after.groups) > 0
    decreases |path| - depth
  {
    assert path[..|path|] == path;
    if depth < |path| {
      var s := Segment(env, w, path, depth, parent);
      if Stands(env, rows, path[..depth + 1]) {
        SegmentFinds(env, paths, rows, known, w, path, depth, parent);
        PathMakes(env, paths, rows, known, s.after, path, depth + 1, s.id);
      } else {
        SegmentMakes(env, paths, rows, known, w, path, depth, parent);
        PathGrows(env, s.after, path, depth + 1, s.id);
      }
    }
  }

  lemma CheckStaysPlain(env: Env, imported: Index, known: Index, w: Run, check: Check)
    requires Live(env, w) && PlainKeys(env) && OnlyKnown(env, known, w.existing)
    ensures OnlyKnown(env, known, ImportCheck(env, imported, w, check).0.existing)
  {
    ResolveKeeps(env, w, check.groupPath);
    var changed := CheckCases(env, imported, w, check);
    if env.translate(check).Build? {
      StoreCases(env, Resolve(env, w, check.groupPath).after, check, RowOf(env, w, check), changed);
      assert forall parent, name :: GroupKey(env, parent, name) != BuiltKey(env, check);
    }
  }

  lemma CheckGrows(env: Env, imported: Index, w: Run, check: Check)
    requires AcceptsGroups(env) && Live(env, w)
    ensures Carried(w.groups) <= Carried(ImportCheck(env, imported, w, check).0.groups)
  {
    CheckAfterPath(env, imported, w, check);
    PathGrows(env, w, check.groupPath, 0, None);
  }

  /** Up to check `n`: no group key is new, and if no group is then every path asked for stands. */
  ghost predicate Telling(env: Env, imported: Index, rows: Rows, known: Index, w: Run, checks: seq<Check>, n: nat)
    requires n <= |checks|
  {
    && Live(env, w) && OnlyKnown(env, known, w.existing)
    && (Carried(w.groups) == 0 ==> AllStand(env, imported, rows, checks[..n]))
  }

  lemma TellingNext(env: Env, imported: Index, rows: Rows, known: Index, w: Run, checks: seq<Check>, n: nat)
    requires AcceptsGroups(env) && PlainKeys(env) && KeysDistinct(PathsOf(checks)) && Read(env, PathsOf(checks), rows, known)
    requires n < |checks| && Telling(env, imported, rows, known, w, checks, n)
    requires Carried(w.groups) == 0 ==> Idle(env, PathsOf(checks), rows, known, w)
    ensures Telling(env, imported, rows, known, ImportCheck(env, imported, w, checks[n]).0, checks, n + 1)
  {
    CheckKeeps(env, imported, w, checks[n]);
    assert StepOk(env, Importing(env, imported), w, checks[n]);
    CheckStaysPlain(env, imported, known, w, checks[n]);
    CheckGrows(env, imported, w, checks[n]);
    if Carried(ImportCheck(env, imported, w, checks[n]).0.groups) == 0 {
      IdleCheckStands(env, imported, PathsOf(checks), rows, known, w, checks[n], checks, n);
      assert checks[..n + 1] == checks[..n] + [checks[n]];
    }
  }

  lemma {:induction false} IdleStands(env: Env, imported: Index, rows: Rows, nextId: nat, known: Index,
                                      checks: seq<Check>, n: nat)
    requires AcceptsGroups(env) && PlainKeys(env)
    requires KeysDistinct(PathsOf(checks)) && Read(env, PathsOf(checks), rows, known) && n <= |checks|
    requires forall id :: id in rows ==> id < nextId
    ensures var after := Before(env, imported, Run(rows, nextId, map[], [], known), checks, n);
            Telling(env, imported, rows, known, after, checks, n)
  {
    var w := Run(rows, nextId, map[], [], known);
    if n > 0 {
      IdleStands(env, imported, rows, nextId, known, checks, n - 1);
      var before := Before(env, imported, w, checks, n - 1);
      if Carried(before.groups) == 0 {
        StandingIsFound(env, imported, rows, nextId, known, checks, n - 1);
      }
      TellingNext(env, imported, rows, known, before, checks, n - 1);
      BeforeNext(env, imported, w, checks, n - 1);
    }
  }

  lemma IdleCheckStands(env: Env, imported: Index, paths: iset<seq<string>>, rows: Rows, known: Index, w: Run,
                        check: Check, checks: seq<Check>, i: nat)
    requires i < |checks| && checks[i] == check && paths == PathsOf(checks)
    requires AcceptsGroups(env) && KeysDistinct(paths) && Read(env, paths, rows, known) && Idle(env, paths, rows, known, w)
    requires Live(env, w) && OnlyKnown(env, known, w.existing)
    requires Carried(ImportCheck(env, imported, w, check).0.groups) == 0
    ensures Asks(env, imported, check) ==> Stands(env, rows, check.groupPath)
  {
    AmongSnapshot(checks, i);
    CheckAfterPath(env, imported, w, check);
    if Asks(env, imported, check) && !Stands(env, rows, check.groupPath) {
      PathMakes(env, paths, rows, known, w, check.groupPath, 0, None);
    }
  }

  /**
   * Where each path of the snapshot leads to one group at most, an import creates no group exactly when
   * every path it asks for is there already, as long as no two of its paths share a cache entry.
   */
  lemma NoGroupIffAllStand(env: Env, imported: Index, rows: Rows, nextId: nat, known: Index, checks: seq<Check>)
    requires AcceptsGroups(env) && PlainKeys(env)
    requires KeysDistinct(PathsOf(checks)) && Read(env, PathsOf(checks), rows, known) && (forall id :: id in rows ==> id < nextId)
    ensures var after := ImportChecks(Importing(env, imported), Run(rows, nextId, map[], [], known), checks).0;
            Carried(after.groups) == 0 <==> AllStand(env, imported, rows, checks)
  {
    assert checks[..|checks|] == checks;
    IdleStands(env, imported, rows, nextId, known, checks, |checks|);
    if AllStand(env, imported, rows, checks) {
      StandingIsFound(env, imported, rows, nextId, known, checks, |checks|);
    }
  }
}
