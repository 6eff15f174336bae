/**
 * What an import reads of the table, and when that decides everything it does: the index of keys is
 * built in whatever order the rows come, so two groups under one key leave it open.
 */
module ImportIndex {
  import opened Prelude
  import opened Text
  import opened Importer

  /** The two indexes know the same keys and name the same row wherever a group is looked up. */
  ghost predicate AgreeOnGroups(env: Env, one: Index, other: Index) {
    && (forall k :: k in one <==> k in other)
    && (forall parent, name :: GroupKey(env, parent, name) in one && GroupKey(env, parent, name) in other ==>
          one[GroupKey(env, parent, name)] == other[GroupKey(env, parent, name)])
  }

  /** No two rows answer to one group key. */
  ghost predicate NoTwins(env: Env, rows: Rows) {
    forall a, b, parent, name ::
      && a in rows && b in rows
      && HasKey(env, rows[a], GroupKey(env, parent, name)) && HasKey(env, rows[b], GroupKey(env, parent, name))
      ==> a == b
  }

  // ----- the index -----

  lemma LoadedSameKeys(env: Env, rows: Rows, one: Index, other: Index)
    requires Loaded(env, rows, one) && Loaded(env, rows, other)
    ensures forall k :: k in one <==> k in other
  {
    forall k | k in one ensures k in other {
      assert HasKey(env, rows[one[k]], k);
    }
    forall k | k in other ensures k in one {
      assert HasKey(env, rows[other[k]], k);
    }
  }

  lemma LoadedAgree(env: Env, rows: Rows, one: Index, other: Index)
    requires NoTwins(env, rows) && Loaded(env, rows, one) && Loaded(env, rows, other)
    ensures AgreeOnGroups(env, one, other)
  {
    LoadedSameKeys(env, rows, one, other);
  }

  /** The index of the rows in `ids`. */
  lemma {:induction false} LoadedOf(env: Env, rows: Rows, ids: set<nat>) returns (byKey: Index)
    requires ids <= rows.Keys
    ensures NamesRows(env, rows, byKey) && forall id, k :: id in ids && HasKey(env, rows[id], k) ==> k in byKey
    decreases ids
  {
    if ids == {} {
      byKey := map[];
    } else {
      var id :| id in ids;
      var rest := LoadedOf(env, rows, ids - {id});
      var row := rows[id];
      byKey := rest[IdentityKey(env, row.checkType, row.url, row.name) := id];
      if row.checkType == "group" {
        byKey := byKey[GroupKey(env, row.parent, row.name) := id];
      }
      forall other, k | other in ids && HasKey(env, rows[other], k) ensures k in byKey {
        assert other == id || other in ids - {id};
      }
    }
  }

  /** Of two rows under one key the index may name either. */
  lemma LoadedNaming(env: Env, rows: Rows, key: string, id: nat) returns (byKey: Index)
    requires id in rows && HasKey(env, rows[id], key)
    ensures Loaded(env, rows, byKey) && key in byKey && byKey[key] == id
  {
    var some := LoadedOf(env, rows, rows.Keys);
    byKey := some[key := id];
  }

  /** What an import looks groups up in is decided by the table exactly when no two rows share a group key. */
  lemma IndexDecidedIff(env: Env, rows: Rows)
    ensures (forall one, other :: Loaded(env, rows, one) && Loaded(env, rows, other) ==> AgreeOnGroups(env, one, other))
            <==> NoTwins(env, rows)
  {
    if NoTwins(env, rows) {
      forall one, other | Loaded(env, rows, one) && Loaded(env, rows, other) ensures AgreeOnGroups(env, one, other) {
        LoadedAgree(env, rows, one, other);
      }
    } else {
      var a, b, parent, name :|
        && a in rows && b in rows && a != b
        && HasKey(env, rows[a], GroupKey(env, parent, name)) && HasKey(env, rows[b], GroupKey(env, parent, name));
      var one := LoadedNaming(env, rows, GroupKey(env, parent, name), a);
      var other := LoadedNaming(env, rows, GroupKey(env, parent, name), b);
      assert !AgreeOnGroups(env, one, other);
    }
  }

  // ----- two imports side by side -----

  /** The two indexes know the same keys and name the same row wherever a group under one of these parents is looked up. */
  ghost predicate AgreeAt(env: Env, parents: iset<Option<nat>>, one: Index, other: Index) {
    && (forall k :: k in one <==> k in other)
    && (forall parent, name ::
          && parent in parents && env.clip(name) != ""
          && Looked(env, parent, name) in one && Looked(env, parent, name) in other
          ==> one[Looked(env, parent, name)] == other[Looked(env, parent, name)])
  }

  /** The key a segment is looked up under. */
  function Looked(env: Env, parent: Option<nat>, segment: string): string {
    GroupKey(env, parent, env.clip(segment))
  }

  /** Whatever an import looks up below these parents, or stores, is one of them again. */
  ghost predicate Closed(env: Env, parents: iset<Option<nat>>, w: Run) {
    && None in parents && (forall n: nat :: n >= w.nextId ==> Some(n) in parents)
    && (forall k :: k in w.byPath ==> Some(w.byPath[k]) in parents)
    && (forall parent, name :: parent in parents && env.clip(name) != "" && Looked(env, parent, name) in w.existing ==>
          Some(w.existing[Looked(env, parent, name)]) in parents)
  }

  /** The same import but for index entries nothing looks at. */
  ghost predicate Alike(env: Env, parents: iset<Option<nat>>, v: Run, w: Run) {
    && v.rows == w.rows && v.nextId == w.nextId && v.byPath == w.byPath && v.groups == w.groups
    && AgreeAt(env, parents, v.existing, w.existing) && Closed(env, parents, v)
  }

  ghost predicate ResolvedAlike(env: Env, parents: iset<Option<nat>>, v: Run, r: Resolved, s: Resolved) {
    if r.Failed? then s == r && v.nextId <= r.nextId
    else s.Found? && Alike(env, parents, r.after, s.after) && r.id == s.id && r.id in parents && v.nextId <= r.after.nextId
  }

  lemma SegmentAlike(env: Env, parents: iset<Option<nat>>, v: Run, w: Run, path: seq<string>, depth: nat,
                     parent: Option<nat>)
    requires Alike(env, parents, v, w) && depth < |path| && parent in parents
    ensures ResolvedAlike(env, parents, v, Segment(env, v, path, depth, parent), Segment(env, w, path, depth, parent))
  {
    var key := Looked(env, parent, path[depth]);
    assert key in v.existing <==> key in w.existing;
  }

  lemma {:induction false} ResolveFromAlike(env: Env, parents: iset<Option<nat>>, v: Run, w: Run, path: seq<string>,
                                            depth: nat, parent: Option<nat>)
    requires Alike(env, parents, v, w) && depth <= |path| && parent in parents
    ensures ResolvedAlike(env, parents, v, ResolveFrom(env, v, path, depth, parent),
                          ResolveFrom(env, w, path, depth, parent))
    decreases |path| - depth
  {
    if depth < |path| {
      SegmentAlike(env, parents, v, w, path, depth, parent);
      var r, s := Segment(env, v, path, depth, parent), Segment(env, w, path, depth, parent);
      if r.Found? {
        ResolveFromAlike(env, parents, r.after, s.after, path, depth + 1, r.id);
      }
    }
  }

  lemma IdsSpentAlike(env: Env, parents: iset<Option<nat>>, v: Run, w: Run, nextId: nat)
    requires Alike(env, parents, v, w) && v.nextId <= nextId
    ensures Alike(env, parents, v.(nextId := nextId), w.(nextId := nextId))
  {
  }

  lemma ResolveAlike(env: Env, parents: iset<Option<nat>>, v: Run, w: Run, path: seq<string>)
    requires Alike(env, parents, v, w)
    ensures var r, s := Resolve(env, v, path), Resolve(env, w, path);
            Alike(env, parents, r.after, s.after) && r.id == s.id && r.failed == s.failed
  {
    ResolveFromAlike(env, parents, v, w, path, 0, None);
    var r := ResolveFrom(env, v, path, 0, None);
    if r.Failed? {
      IdsSpentAlike(env, parents, v, w, r.nextId);
    }
  }

  lemma StoreAlike(env: Env, parents: iset<Option<nat>>, v: Run, w: Run, check: Check, row: Row, changed: bool)
    requires Alike(env, parents, v, w)
    ensures var (v', e) := Store(env, v, check, row, changed);
            var (w', f) := Store(env, w, check, row, changed);
            Alike(env, parents, v', w') && e == f
  {
    var key := IdentityKey(env, row.checkType, row.url, row.name);
    assert key in v.existing <==> key in w.existing;
    IdsSpentAlike(env, parents, v, w, v.nextId + 1);
  }

  lemma CheckAlike(env: Env, parents: iset<Option<nat>>, known: Index, imports: Index, v: Run, w: Run, check: Check)
    requires Alike(env, parents, v, w) && forall k :: k in known <==> k in imports
    ensures var (v', e) := ImportCheck(env, known, v, check);
            var (w', f) := ImportCheck(env, imports, w, check);
            Alike(env, parents, v', w') && e == f
  {
    ResolveAlike(env, parents, v, w, check.groupPath);
    var t, p := env.translate(check), Resolve(env, v, check.groupPath);
    if t.Build? {
      StoreAlike(env, parents, p.after, Resolve(env, w, check.groupPath).after, check,
                 CheckRow(env, check, t.checkType, t.url, t.name, p.id), t.changed || p.id.Some? || p.failed);
    }
  }

  /** Two steps that keep imports alike and agree on the line. */
  ghost predicate StepsAlike(env: Env, parents: iset<Option<nat>>, one: Step, other: Step) {
    forall v, w, check :: Alike(env, parents, v, w) ==> StepAlike(env, parents, one, other, v, w, check)
  }

  ghost predicate StepAlike(env: Env, parents: iset<Option<nat>>, one: Step, other: Step, v: Run, w: Run, check: Check) {
    Alike(env, parents, one(v, check).0, other(w, check).0) && one(v, check).1 == other(w, check).1
  }

  lemma {:induction false} ChecksAlike(env: Env, parents: iset<Option<nat>>, one: Step, other: Step, v: Run, w: Run,
                                       checks: seq<Check>)
    requires Alike(env, parents, v, w) && StepsAlike(env, parents, one, other)
    ensures var (v', lines) := ImportChecks(one, v, checks);
            var (w', others) := ImportChecks(other, w, checks);
            Alike(env, parents, v', w') && lines == others
    decreases |checks|
  {
    if checks != [] {
      var last := |checks| - 1;
      ChecksAlike(env, parents, one, other, v, w, checks[..last]);
      assert StepAlike(env, parents, one, other, ImportChecks(one, v, checks[..last]).0,
                       ImportChecks(other, w, checks[..last]).0, checks[last]);
    }
  }

  // ----- the report -----

  /** Everything an import of `checks` reports from this table when it has read these indexes. */
  function Report(env: Env, rows: Rows, nextId: nat, checks: seq<Check>, extras: seq<Entry>, known: Index, imports: Index)
    : seq<Entry>
  {
    var (after, lines) := ImportChecks(Importing(env, imports), Run(rows, nextId, map[], [], known), checks);
    CheckLines(checks, lines) + after.groups + extras
  }

  /** The table it leaves. */
  function TableAfter(env: Env, rows: Rows, nextId: nat, checks: seq<Check>, known: Index, imports: Index): Rows {
    ImportChecks(Importing(env, imports), Run(rows, nextId, map[], [], known), checks).0.rows
  }

  lemma SameImports(env: Env, rows: Rows, one: Index, other: Index)
    requires LoadedImports(env, rows, one) && LoadedImports(env, rows, other)
    ensures forall k :: k in one <==> k in other
  {
  }

  /** Imports that start alike make the same report and the same table. */
  lemma ReportsAlike(env: Env, parents: iset<Option<nat>>, rows: Rows, nextId: nat, checks: seq<Check>,
                     extras: seq<Entry>, known: Index, imports: Index, known': Index, imports': Index)
    requires Alike(env, parents, Run(rows, nextId, map[], [], known), Run(rows, nextId, map[], [], known'))
    requires forall k :: k in imports <==> k in imports'
    ensures Report(env, rows, nextId, checks, extras, known, imports)
         == Report(env, rows, nextId, checks, extras, known', imports')
    ensures TableAfter(env, rows, nextId, checks, known, imports) == TableAfter(env, rows, nextId, checks, known', imports')
  {
    var one, other := Importing(env, imports), Importing(env, imports');
    forall v, w, check | Alike(env, parents, v, w) ensures StepAlike(env, parents, one, other, v, w, check) {
      CheckAlike(env, parents, imports, imports', v, w, check);
    }
    ChecksAlike(env, parents, one, other, Run(rows, nextId, map[], [], known), Run(rows, nextId, map[], [], known'),
                checks);
  }

  /**
   * A preview is a result, not a forecast: on a table in which no two groups share a key, every import
   * of the snapshot makes the same report and the same table, in whatever order the rows were read.
   */
  lemma ReportIsDecided(env: Env, rows: Rows, nextId: nat, checks: seq<Check>, extras: seq<Entry>,
                        known: Index, imports: Index, known': Index, imports': Index)
    requires NoTwins(env, rows)
    requires Loaded(env, rows, known) && LoadedImports(env, rows, imports)
    requires Loaded(env, rows, known') && LoadedImports(env, rows, imports')
    ensures Report(env, rows, nextId, checks, extras, known, imports)
         == Report(env, rows, nextId, checks, extras, known', imports')
    ensures TableAfter(env, rows, nextId, checks, known, imports) == TableAfter(env, rows, nextId, checks, known', imports')
  {
    LoadedAgree(env, rows, known, known');
    SameImports(env, rows, imports, imports');
    var all := iset parent: Option<nat> | parent.None? || parent.Some?;
    assert AgreeAt(env, all, known, known');
    ReportsAlike(env, all, rows, nextId, checks, extras, known, imports, known', imports');
  }

  // ----- where it is not decided -----

  lemma TwoSegments(env: Env, w: Run, path: seq<string>)
    requires |path| == 2 && Segment(env, w, path, 0, None).Found?
    ensures var first := Segment(env, w, path, 0, None);
            ResolveFrom(env, w, path, 0, None) == Segment(env, first.after, path, 1, first.id)
  {
    var first := Segment(env, w, path, 0, None);
    var second := Segment(env, first.after, path, 1, first.id);
    if second.Found? {
      assert ResolveFrom(env, second.after, path, 2, second.id) == Found(second.after, second.id);
    }
    assert ResolveFrom(env, first.after, path, 1, first.id) == second;
  }

  /** One refused check: its path is resolved, and the report is its line and the groups' lines. */
  lemma RefusedReport(env: Env, rows: Rows, nextId: nat, check: Check, known: Index, imports: Index)
    requires env.digest(check.sourceId) !in imports && env.translate(check).Refused?
    ensures Carried(Report(env, rows, nextId, [check], [], known, imports))
         == Carried(Resolve(env, Run(rows, nextId, map[], [], known), check.groupPath).after.groups)
  {
    var step, w := Importing(env, imports), Run(rows, nextId, map[], [], known);
    var (after, line) := step(w, check);
    assert [check][..0] == [] && ImportChecks(step, w, [check][..0]) == (w, []);
    assert ImportChecks(step, w, [check]) == (after, [] + [line]);
    assert [] + [line] == [line];
    assert CheckLines([check], [line]) == [line];
    assert [line] + after.groups + [] == [line] + after.groups;
    CarriedAfterLine(line, after.groups);
  }

  lemma {:induction false} CarriedAfterLine(line: Entry, groups: seq<Entry>)
    requires line.monitorId.None?
    ensures Carried([line] + groups) == Carried(groups)
    decreases |groups|
  {
    if groups == [] {
      assert [line] + groups == [line] && [line][..0] == [];
    } else {
      var all := [line] + groups;
      assert all[..|all| - 1] == [line] + groups[..|groups| - 1];
      CarriedAfterLine(line, groups[..|groups| - 1]);
    }
  }

  /** Two top-level groups under one key, `a` with a subgroup that `b` has not, and a path that asks for it. */
  ghost predicate Torn(env: Env, rows: Rows, a: nat, b: nat, c: nat, name: string, sub: string) {
    && a in rows && b in rows && c in rows
    && env.clip(name) == name != "" && env.clip(sub) == sub != ""
    && HasKey(env, rows[a], GroupKey(env, None, name)) && HasKey(env, rows[b], GroupKey(env, None, name))
    && HasKey(env, rows[c], GroupKey(env, Some(a), sub))
    && (forall r :: r in rows ==> !HasKey(env, rows[r], GroupKey(env, Some(b), sub)))
    && !env.refuses(rows, GroupRow(sub, Some(b)))
  }

  lemma FirstSegment(env: Env, w: Run, name: string, sub: string)
    requires env.clip(name) == name != "" && w.byPath == map[] && w.groups == [] && GroupKey(env, None, name) in w.existing
    ensures var id := w.existing[GroupKey(env, None, name)];
            Segment(env, w, [name, sub], 0, None)
            == Found(Run(w.rows, w.nextId, map[name := id], [GroupEntry(name, Reused, None)], w.existing), Some(id))
  {
    assert [name, sub][..1] == [name];
    assert w.groups + [GroupEntry(name, Reused, None)] == [GroupEntry(name, Reused, None)];
  }

  lemma SecondSegment(env: Env, w: Run, name: string, sub: string, parent: nat)
    requires env.clip(sub) == sub != "" && w.byPath.Keys == {name}
    ensures PathKey([name, sub]) !in w.byPath
    ensures [name, sub][..2] == [name, sub]
  {
    assert PathKey([name, sub]) == name + (['/'] + PathKey([sub])) by { assert [name, sub][1..] == [sub]; }
    assert |PathKey([name, sub])| > |name|;
  }

  lemma CarriedTwo(e: Entry, f: Entry)
    ensures Carried([e] + [f]) == (if e.monitorId.Some? then 1 else 0) + (if f.monitorId.Some? then 1 else 0)
  {
    assert ([e] + [f])[..1] == [e] && [e][..0] == [];
    assert Carried([e][..0]) == 0;
  }

  lemma ReusesBoth(env: Env, rows: Rows, nextId: nat, known: Index, a: nat, name: string, sub: string)
    requires env.clip(name) == name != "" && env.clip(sub) == sub != ""
    requires GroupKey(env, None, name) in known && known[GroupKey(env, None, name)] == a
    requires GroupKey(env, Some(a), sub) in known
    ensures Carried(Resolve(env, Run(rows, nextId, map[], [], known), [name, sub]).after.groups) == 0
  {
    var w := Run(rows, nextId, map[], [], known);
    FirstSegment(env, w, name, sub);
    var first := Segment(env, w, [name, sub], 0, None);
    SecondSegment(env, first.after, name, sub, a);
    TwoSegments(env, w, [name, sub]);
    var key := PathKey([name, sub]);
    var groups := [GroupEntry(name, Reused, None)] + [GroupEntry(key, Reused, None)];
    assert Resolve(env, w, [name, sub]).after.groups == groups;
    CarriedTwo(groups[0], groups[1]);
  }

  lemma CreatesSecond(env: Env, rows: Rows, nextId: nat, known: Index, b: nat, name: string, sub: string)
    requires env.clip(name) == name != "" && env.clip(sub) == sub != ""
    requires GroupKey(env, None, name) in known && known[GroupKey(env, None, name)] == b
    requires GroupKey(env, Some(b), sub) !in known && !env.refuses(rows, GroupRow(sub, Some(b)))
    ensures Carried(Resolve(env, Run(rows, nextId, map[], [], known), [name, sub]).after.groups) == 1
  {
    var w := Run(rows, nextId, map[], [], known);
    FirstSegment(env, w, name, sub);
    var first := Segment(env, w, [name, sub], 0, None);
    SecondSegment(env, first.after, name, sub, b);
    TwoSegments(env, w, [name, sub]);
    var key := PathKey([name, sub]);
    var groups := [GroupEntry(name, Reused, None)] + [GroupEntry(key, Created, Some(nextId))];
    assert Resolve(env, w, [name, sub]).after.groups == groups;
    CarriedTwo(groups[0], groups[1]);
  }

  /** Two imports of one torn table may disagree: one finds the subgroup, the other creates it again. */
  lemma TornReportsDiffer(env: Env, rows: Rows, nextId: nat, a: nat, b: nat, c: nat, name: string, sub: string,
                          check: Check, imports: Index) returns (known: Index, known': Index)
    requires Torn(env, rows, a, b, c, name, sub) && LoadedImports(env, rows, imports)
    requires check.groupPath == [name, sub] && env.translate(check).Refused? && env.digest(check.sourceId) !in imports
    ensures Loaded(env, rows, known) && Loaded(env, rows, known')
    ensures Carried(Report(env, rows, nextId, [check], [], known, imports)) == 0
    ensures Carried(Report(env, rows, nextId, [check], [], known', imports)) == 1
  {
    known := LoadedNaming(env, rows, GroupKey(env, None, name), a);
    known' := LoadedNaming(env, rows, GroupKey(env, None, name), b);
    assert GroupKey(env, Some(b), sub) !in known';
    ReusesBoth(env, rows, nextId, known, a, name, sub);
    CreatesSecond(env, rows, nextId, known', b, name, sub);
    RefusedReport(env, rows, nextId, check, known, imports);
    RefusedReport(env, rows, nextId, check, known', imports);
  }

  /** Names compared without case, as far as one letter goes. */
  const PLAIN := Env("p", (c: Check) => Refused, (s: string) => s, (rows: Rows, row: Row) => false,
                     (t: string) => if t == "A" then "a" else t, (t: string) => t,
                     (n: nat) => Digits(n))

  /** Groups `A` and `a`, and `x` inside the first. */
  const TORN: Rows := map[0 := GroupRow("A", None), 1 := GroupRow("a", None), 2 := GroupRow("x", Some(0))]

  lemma JoinThree(a: string, b: string, c: string)
    ensures Join([a, b, c], '\0') == a + (['\0'] + (b + (['\0'] + c)))
  {
    assert [a, b, c][1..] == [b, c] && [b, c][1..] == [c];
    assert Join([b, c], '\0') == b + (['\0'] + Join([c], '\0'));
  }

  /** Keys differ where their second parts start differently. */
  lemma KeysDiffer(a: string, b: string, c: string, d: string)
    requires a != "" && c != "" && a[0] != c[0]
    ensures Join(["group", a, b], '\0') != Join(["group", c, d], '\0')
  {
    JoinThree("group", a, b);
    JoinThree("group", c, d);
    assert Join(["group", a, b], '\0')[6] == a[0] && Join(["group", c, d], '\0')[6] == c[0];
  }

  function ParentText(env: Env, parent: Option<nat>): string {
    if parent.None? then "-" else env.idText(parent.value)
  }

  /** A group does not answer to a key under a parent whose id starts unlike its own name and its own parent's id. */
  lemma LacksKey(env: Env, name: string, parent: Option<nat>, id: nat, sub: string)
    requires env.idText(id) != "" && env.fold(name) != "" && ParentText(env, parent) != ""
    requires env.idText(id)[0] != env.fold(name)[0] && env.idText(id)[0] != ParentText(env, parent)[0]
    ensures !HasKey(env, GroupRow(name, parent), GroupKey(env, Some(id), sub))
  {
    KeysDiffer(env.idText(id), env.fold(sub), env.fold(name), env.fold(name));
    KeysDiffer(env.idText(id), env.fold(sub), ParentText(env, parent), env.fold(name));
  }

  lemma PlainIds()
    ensures PLAIN.idText(0) == "0" && PLAIN.idText(1) == "1" && PLAIN.idText(2) == "2"
  {
  }

  lemma TornIsTorn()
    ensures Torn(PLAIN, TORN, 0, 1, 2, "A", "x")
  {
    PlainIds();
    LacksKey(PLAIN, "A", None, 1, "x");
    LacksKey(PLAIN, "a", None, 1, "x");
    LacksKey(PLAIN, "x", Some(0), 1, "x");
  }

  /** So the preview of an import may be a forecast after all: `["A", "x"]` on that table. */
  lemma PreviewMayDiffer() returns (known: Index, known': Index)
    ensures Loaded(PLAIN, TORN, known) && Loaded(PLAIN, TORN, known') && LoadedImports(PLAIN, TORN, map[])
    ensures var check := Check("s", ["A", "x"], false);
            Report(PLAIN, TORN, 3, [check], [], known, map[]) != Report(PLAIN, TORN, 3, [check], [], known', map[])
  {
    TornIsTorn();
    known, known' := TornReportsDiffer(PLAIN, TORN, 3, 0, 1, 2, "A", "x", Check("s", ["A", "x"], false), map[]);
  }
}
