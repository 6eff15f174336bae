/**
 * When the report's count of created monitors is the number of rows added: exactly when no source
 * id comes twice, because lines are looked up by source id.
 */
module ImportCounts {
  import opened Prelude
  import opened Text
  import opened Importer
  import opened ImporterLaws
  import opened ImportIndex

  /** The count of one import is right: as many lines carry an id as rows were added. */
  ghost predicate CountsRight(env: Env, rows: Rows, nextId: nat, checks: seq<Check>, known: Index, imports: Index) {
    Carried(Report(env, rows, nextId, checks, [], known, imports))
    == |TableAfter(env, rows, nextId, checks, known, imports)| - |rows|
  }

  /** Some import of these checks, from a table whose ids are all taken. */
  ghost predicate Possible(env: Env, rows: Rows, nextId: nat, known: Index, imports: Index) {
    (forall id :: id in rows ==> id < nextId) && Loaded(env, rows, known) && LoadedImports(env, rows, imports)
  }

  // ----- two checks with one id -----

  lemma TwoChecks(step: Step, w: Run, a: Check, b: Check)
    ensures var (once, first) := step(w, a);
            var (twice, second) := step(once, b);
            ImportChecks(step, w, [a, b]) == (twice, [first, second])
  {
    assert [a, b][..1] == [a] && [a][..0] == [];
    var (once, first) := step(w, a);
    assert ImportChecks(step, w, [a][..0]) == (w, []);
    assert ImportChecks(step, w, [a]).1 == [] + [first] == [first];
    assert ImportChecks(step, w, [a]) == (once, [first]);
    assert [first] + [step(once, b).1] == [first, step(once, b).1];
  }

  /** Both lines of the report are the second check's. */
  lemma SecondLineTwice(a: Check, b: Check, first: Entry, second: Entry)
    requires a.sourceId == b.sourceId
    ensures CheckLines([a, b], [first, second]) == [second, second]
    ensures Carried([second, second]) == if second.monitorId.Some? then 2 else 0
  {
    assert [a, b][..1] == [a] && [first, second][..1] == [first];
    assert [second, second] == [second] + [second];
    CarriedTwo(second, second);
  }

  /** A second check of an id already stored is never stored: the index on origins refuses it. */
  lemma NotTwice(env: Env, imports: Index, w: Run, a: Check, b: Check)
    requires Live(env, w) && a.sourceId == b.sourceId
    ensures var (once, first) := ImportCheck(env, imports, w, a);
            first.monitorId.Some? ==> ImportCheck(env, imports, once, b).1.monitorId.None?
  {
    var (once, first) := ImportCheck(env, imports, w, a);
    CheckKeeps(env, imports, w, a);
    if first.monitorId.Some? && env.translate(b).Build? {
      assert StepOk(env, Importing(env, imports), w, a);
      var changed := CheckCases(env, imports, once, b);
      ResolveKeeps(env, once, b.groupPath);
      OriginRefuses(env, Resolve(env, once, b.groupPath).after, b, RowOf(env, once, b), changed, first.monitorId.value);
    } else {
      var changed := CheckCases(env, imports, once, b);
    }
  }

  lemma OriginRefuses(env: Env, w: Run, check: Check, row: Row, changed: bool, holder: nat)
    requires holder in w.rows && row.origin.Some? && w.rows[holder].origin == row.origin
    ensures Store(env, w, check, row, changed).1.monitorId.None?
  {
  }

  /**
   * Two checks with one source id: the report counts the second line twice and the first not at all.
   * At most one of them is stored, so the count is one short if that is the first, and one over if it
   * is the second.
   */
  lemma RepeatedIdMiscounts(env: Env, imports: Index, w: Run, a: Check, b: Check)
    requires Live(env, w) && a.sourceId == b.sourceId
    ensures var (once, first) := ImportCheck(env, imports, w, a);
            var (twice, second) := ImportCheck(env, imports, once, b);
            var stored := (if first.monitorId.Some? then 1 else 0) + (if second.monitorId.Some? then 1 else 0);
            && ImportChecks(Importing(env, imports), w, [a, b]) == (twice, [first, second])
            && stored <= 1 && Counts(w, twice, stored)
            && Carried(CheckLines([a, b], [first, second])) == if second.monitorId.Some? then 2 else 0
  {
    var (once, first) := ImportCheck(env, imports, w, a);
    var (twice, second) := ImportCheck(env, imports, once, b);
    TwoChecks(Importing(env, imports), w, a, b);
    SecondLineTwice(a, b, first, second);
    CheckKeeps(env, imports, w, a);
    assert StepOk(env, Importing(env, imports), w, a);
    CheckKeeps(env, imports, once, b);
    assert StepOk(env, Importing(env, imports), once, b);
    NotTwice(env, imports, w, a, b);
    KeptOn(env, w, once, twice, if first.monitorId.Some? then 1 else 0, if second.monitorId.Some? then 1 else 0);
  }

  // ----- an import that tells on any repeated id -----

  /** The same engine, with other checks to translate and another store to refuse rows. */
  function Under(env: Env, translate: Check -> Translation, refuses: (Rows, Row) -> bool): Env {
    env.(translate := translate, refuses := refuses)
  }

  /** Builds every check of one source id, all of them the same monitor, and stores no group. */
  function OnlyBuilds(env: Env, id: string): Env {
    Under(env, (c: Check) => if c.sourceId == id then Build("t", "u", "n", false) else Unmapped,
          (rows: Rows, row: Row) => row.checkType == "group")
  }

  const BLANK := Run(map[], 0, map[], [], map[])

  ghost predicate RefusesGroups(env: Env) {
    forall rows, name, parent :: env.refuses(rows, GroupRow(name, parent))
  }

  /** No group would be found. */
  ghost predicate Groupless(env: Env, w: Run) {
    w.byPath == map[] && w.groups == [] && forall parent, name :: GroupKey(env, parent, name) !in w.existing
  }

  /** A store that refuses groups leaves every path blank or failed. */
  lemma {:induction false} NoGroupMade(env: Env, w: Run, path: seq<string>, depth: nat)
    requires depth <= |path| && RefusesGroups(env) && Groupless(env, w)
    ensures var r := ResolveFrom(env, w, path, depth, None); r.Failed? || r == Found(w, None)
    decreases |path| - depth
  {
    if depth < |path| {
      var s := Segment(env, w, path, depth, None);
      assert env.refuses(w.rows, GroupRow(env.clip(path[depth]), None));
      assert s.Failed? || s == Found(w, None);
      NoGroupMade(env, w, path, depth + 1);
    }
  }

  /** A key that does not start like a group's is none. */
  lemma PlainKey(env: Env, url: string, name: string, parent: Option<nat>, group: string)
    ensures IdentityKey(env, "t", url, name) != GroupKey(env, parent, group)
  {
    var at := if parent.None? then "-" else env.idText(parent.value);
    JoinThree("t", env.fold(url), env.fold(name));
    JoinThree("group", at, env.fold(group));
    assert IdentityKey(env, "t", url, name)[0] == 't' && GroupKey(env, parent, group)[0] == 'g';
  }

  /** Where such an import stands, before and after the first check of that id; `key` is its monitor's. */
  ghost predicate Phase(key: string, w: Run, seen: bool) {
    && w.byPath == map[] && w.groups == []
    && (if seen then |w.rows| == 1 && w.existing.Keys == {key} else w.rows == map[] && w.existing == map[])
  }

  lemma PhaseIsGroupless(env: Env, w: Run, seen: bool)
    requires Phase(IdentityKey(env, "t", "u", "n"), w, seen)
    ensures Groupless(env, w)
  {
    forall parent, name ensures GroupKey(env, parent, name) !in w.existing {
      PlainKey(env, "u", "n", parent, name);
    }
  }

  /** The monitor is stored if it is the first, and found if it is not. */
  lemma StoredOnce(env: Env, w: Run, check: Check, row: Row, changed: bool, seen: bool)
    requires Phase(IdentityKey(env, row.checkType, row.url, row.name), w, seen) && !env.refuses(w.rows, row)
    ensures var (after, line) := Store(env, w, check, row, changed);
            && Phase(IdentityKey(env, row.checkType, row.url, row.name), after, true)
            && (line.monitorId.Some? <==> !seen)
  {
  }

  /** The first check of that id is stored, and no other. */
  lemma OneIsBuilt(env: Env, id: string, w: Run, check: Check, seen: bool)
    requires Phase(IdentityKey(env, "t", "u", "n"), w, seen)
    ensures var (after, line) := ImportCheck(OnlyBuilds(env, id), map[], w, check);
            && Phase(IdentityKey(env, "t", "u", "n"), after, seen || check.sourceId == id)
            && (line.monitorId.Some? <==> !seen && check.sourceId == id)
  {
    var only := OnlyBuilds(env, id);
    var key := IdentityKey(env, "t", "u", "n");
    assert IdentityKey(only, "t", "u", "n") == key;
    PhaseIsGroupless(only, w, seen);
    NoGroupMade(only, w, check.groupPath, 0);
    if check.sourceId == id {
      var placed := Resolve(only, w, check.groupPath);
      assert Phase(key, placed.after, seen);
      var row := CheckRow(only, check, "t", "u", "n", placed.id);
      assert !only.refuses(placed.after.rows, row);
      StoredOnce(only, placed.after, check, row, placed.id.Some? || placed.failed, seen);
    }
  }

  ghost predicate Occurs(checks: seq<Check>, id: string) {
    exists i :: 0 <= i < |checks| && checks[i].sourceId == id
  }

  /** The line of the i-th check carries an id exactly when it is the first of that source id. */
  ghost predicate Told(id: string, checks: seq<Check>, lines: seq<Entry>, i: nat) {
    i < |checks| == |lines| ==>
      (lines[i].monitorId.Some? <==> checks[i].sourceId == id && !Occurs(checks[..i], id))
  }

  ghost predicate AllTold(id: string, checks: seq<Check>, lines: seq<Entry>) {
    forall i: nat :: Told(id, checks, lines, i)
  }

  lemma ToldOn(id: string, checks: seq<Check>, lines: seq<Entry>, more: Entry)
    requires checks != [] && |lines| == |checks| - 1 && AllTold(id, checks[..|checks| - 1], lines)
    requires more.monitorId.Some? <==> !Occurs(checks[..|checks| - 1], id) && checks[|checks| - 1].sourceId == id
    ensures AllTold(id, checks, lines + [more])
  {
    var last := |checks| - 1;
    forall i: nat ensures Told(id, checks, lines + [more], i) {
      if i < last {
        assert Told(id, checks[..last], lines, i);
        assert checks[..last][..i] == checks[..i];
      }
    }
  }

  lemma {:induction false} FirstIsBuilt(env: Env, id: string, checks: seq<Check>)
    ensures var (after, lines) := ImportChecks(Importing(OnlyBuilds(env, id), map[]), BLANK, checks);
            Phase(IdentityKey(env, "t", "u", "n"), after, Occurs(checks, id)) && AllTold(id, checks, lines)
    decreases |checks|
  {
    if checks != [] {
      var last := |checks| - 1;
      FirstIsBuilt(env, id, checks[..last]);
      var (before, lines) := ImportChecks(Importing(OnlyBuilds(env, id), map[]), BLANK, checks[..last]);
      OneIsBuilt(env, id, before, checks[last], Occurs(checks[..last], id));
      OccursMore(checks, id);
      ToldOn(id, checks, lines, ImportCheck(OnlyBuilds(env, id), map[], before, checks[last]).1);
    }
  }

  lemma OccursMore(checks: seq<Check>, id: string)
    requires checks != []
    ensures var last := |checks| - 1; Occurs(checks, id) <==> Occurs(checks[..last], id) || checks[last].sourceId == id
  {
    var last := |checks| - 1;
    if Occurs(checks[..last], id) {
      var i :| 0 <= i < last && checks[..last][i].sourceId == id;
      assert checks[i].sourceId == id;
    }
    if Occurs(checks, id) && checks[last].sourceId != id {
      var i :| 0 <= i < |checks| && checks[i].sourceId == id;
      assert checks[..last][i].sourceId == id;
    }
  }

  /** The line of an id is the last one with it. */
  lemma {:induction false} LineIsLast(checks: seq<Check>, lines: seq<Entry>, id: string) returns (i: nat)
    requires |checks| == |lines| && Occurs(checks, id)
    ensures i < |checks| && checks[i].sourceId == id && ById(checks, lines)[id] == lines[i]
    ensures forall j :: i < j < |checks| ==> checks[j].sourceId != id
    decreases |checks|
  {
    var last := |checks| - 1;
    OccursMore(checks, id);
    if checks[last].sourceId == id {
      i := last;
    } else {
      i := LineIsLast(checks[..last], lines[..last], id);
    }
  }

  /** With an id that repeats no check line carries anything, and one row was added. */
  lemma {:induction false} NoLineCarries(env: Env, checks: seq<Check>, a: nat, b: nat)
    requires a < b < |checks| && checks[a].sourceId == checks[b].sourceId
    ensures var lines := ImportChecks(Importing(OnlyBuilds(env, checks[a].sourceId), map[]), BLANK, checks).1;
            forall e :: e in CheckLines(checks, lines) ==> e.monitorId == None
  {
    var id := checks[a].sourceId;
    var lines := ImportChecks(Importing(OnlyBuilds(env, id), map[]), BLANK, checks).1;
    FirstIsBuilt(env, id, checks);
    forall k | 0 <= k < |checks| ensures CheckLines(checks, lines)[k].monitorId == None {
      assert Occurs(checks, checks[k].sourceId);
      var i := LineIsLast(checks, lines, checks[k].sourceId);
      assert Told(id, checks, lines, i);
      if checks[i].sourceId == id {
        assert b <= i && checks[..i][a].sourceId == id;
        assert Occurs(checks[..i], id);
      }
    }
  }

  /** With no groups to report and no extras, the report is the checks' lines. */
  lemma PlainReport(env: Env, checks: seq<Check>)
    requires ImportChecks(Importing(env, map[]), BLANK, checks).0.groups == []
    ensures var lines := ImportChecks(Importing(env, map[]), BLANK, checks).1;
            Report(env, map[], 0, checks, [], map[], map[]) == CheckLines(checks, lines)
  {
    var (after, lines) := ImportChecks(Importing(env, map[]), BLANK, checks);
    assert CheckLines(checks, lines) + after.groups + [] == CheckLines(checks, lines);
  }

  /** One row is added and no line carries anything. */
  lemma {:induction false} RepeatedIdCountsNone(env: Env, checks: seq<Check>, a: nat, b: nat)
    requires a < b < |checks| && checks[a].sourceId == checks[b].sourceId
    ensures var only := OnlyBuilds(env, checks[a].sourceId);
            && Carried(Report(only, map[], 0, checks, [], map[], map[])) == 0
            && |TableAfter(only, map[], 0, checks, map[], map[])| == 1
  {
    var id := checks[a].sourceId;
    FirstIsBuilt(env, id, checks);
    assert Occurs(checks, id);
    NoLineCarries(env, checks, a, b);
    PlainReport(OnlyBuilds(env, id), checks);
    NoneCarried(Report(OnlyBuilds(env, id), map[], 0, checks, [], map[], map[]));
  }

  lemma EmptyTablePossible(env: Env)
    ensures Possible(env, map[], 0, map[], map[])
  {
  }

  /** The count is right whatever the checks translate to, the store refuses and the table holds. */
  ghost predicate AlwaysRight(env: Env, checks: seq<Check>) {
    forall translate, refuses, rows, nextId, known, imports ::
      var some := Under(env, translate, refuses);
      Possible(some, rows, nextId, known, imports) ==> CountsRight(some, rows, nextId, checks, known, imports)
  }

  lemma {:induction false} RepeatedIdTells(env: Env, checks: seq<Check>)
    requires !DistinctIds(checks)
    ensures !AlwaysRight(env, checks)
  {
    var a, b :| 0 <= a < b < |checks| && checks[a].sourceId == checks[b].sourceId;
    var only := OnlyBuilds(env, checks[a].sourceId);
    RepeatedIdCountsNone(env, checks, a, b);
    EmptyTablePossible(only);
    assert !CountsRight(only, map[], 0, checks, map[], map[]);
    assert only == Under(env, only.translate, only.refuses);
  }

  /**
   * One engine, as it folds, clips and digests: its count is right for every import of these checks,
   * whatever they translate to and into any table, exactly when no id repeats.
   */
  lemma CountsRightIffDistinct(env: Env, checks: seq<Check>)
    ensures AlwaysRight(env, checks) <==> DistinctIds(checks)
  {
    if DistinctIds(checks) {
      forall translate, refuses, rows, nextId, known, imports |
        Possible(Under(env, translate, refuses), rows, nextId, known, imports)
        ensures CountsRight(Under(env, translate, refuses), rows, nextId, checks, known, imports)
      {
        CreatedMatchesTable(Under(env, translate, refuses), imports, rows, nextId, known, checks, []);
      }
    } else {
      RepeatedIdTells(env, checks);
    }
  }

  // ----- both ways wrong -----

  const FIRST := Check("s", [], false)
  const SECOND := Check("s", [], true)

  /** Two copies of one check: a monitor is created and none is counted. */
  lemma Undercounts()
    ensures var env := OnlyBuilds(PLAIN, "s");
            && Carried(Report(env, map[], 0, [FIRST, FIRST], [], map[], map[])) == 0
            && |TableAfter(env, map[], 0, [FIRST, FIRST], map[], map[])| == 1
  {
    RepeatedIdCountsNone(PLAIN, [FIRST, FIRST], 0, 1);
  }

  /** Builds paused checks only. */
  function BuildsPaused(): Env {
    Under(PLAIN, (c: Check) => if c.paused then Build("t", "u", "n", false) else Unmapped, (rows: Rows, row: Row) => false)
  }

  /** An unmapped check and a stored one under one id: one monitor is created and two are counted. */
  lemma Overcounts()
    ensures Carried(Report(BuildsPaused(), map[], 0, [FIRST, SECOND], [], map[], map[])) == 2
    ensures |TableAfter(BuildsPaused(), map[], 0, [FIRST, SECOND], map[], map[])| == 1
  {
    var env := BuildsPaused();
    var (once, first) := ImportCheck(env, map[], BLANK, FIRST);
    assert once == BLANK && first.monitorId.None?;
    assert ResolveFrom(env, BLANK, [], 0, None) == Found(BLANK, None);
    var (twice, second) := ImportCheck(env, map[], once, SECOND);
    assert second.monitorId.Some? && twice.groups == [];
    RepeatedIdMiscounts(env, map[], BLANK, FIRST, SECOND);
    var lines := CheckLines([FIRST, SECOND], [first, second]);
    assert lines + twice.groups + [] == lines;
  }
}
