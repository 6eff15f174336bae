/**
 * Importing a snapshot again finds every group the first import made; and the two ways it can fail to.
 */
module ImportAgain {
  import opened Prelude
  import opened Text
  import opened Importer
  import opened ImporterLaws
  import opened ImportIndex
  import opened ImportCounts
  import opened ImportGroups

  /** No path the import asks for is refused by the store. */
  ghost predicate AllPlaced(env: Env, imported: Index, w: Run, checks: seq<Check>) {
    forall i: nat :: i < |checks| && Asks(env, imported, checks[i]) ==> PlacedAt(env, imported, w, checks, i)
  }

  /** What the first import recorded or found recorded is still recorded. */
  lemma RecordedStays(env: Env, rows: Rows, imported: Index, again: Rows, importedAgain: Index)
    requires LoadedImports(env, rows, imported) && LoadedImports(env, again, importedAgain) && Extends(rows, again)
    ensures forall k :: k in imported ==> k in importedAgain
  {
    forall k | k in imported ensures k in importedAgain {
      assert again[imported[k]].origin == Some(Origin(env.provider, k));
    }
  }

  /**
   * Importing a snapshot again, whatever was added to the table in between and whatever the store refuses
   * now, creates no group: every path it still asks for was placed the first time and is found.
   */
  lemma ReimportCreatesNoGroup(env: Env, refuses: (Rows, Row) -> bool, checks: seq<Check>,
                               rows: Rows, nextId: nat, imported: Index, existing: Index,
                               again: Rows, nextAgain: nat, importedAgain: Index, existingAgain: Index)
    requires KeysDistinct(PathsOf(checks))
    requires Loaded(env, rows, existing) && LoadedImports(env, rows, imported) && (forall id :: id in rows ==> id < nextId)
    requires AllPlaced(env, imported, Run(rows, nextId, map[], [], existing), checks)
    requires Extends(ImportChecks(Importing(env, imported), Run(rows, nextId, map[], [], existing), checks).0.rows, again)
    requires var later := env.(refuses := refuses);
             Read(later, PathsOf(checks), again, existingAgain) && LoadedImports(later, again, importedAgain)
    requires forall id :: id in again ==> id < nextAgain
    ensures var w := Run(again, nextAgain, map[], [], existingAgain);
            Carried(ImportChecks(Importing(env.(refuses := refuses), importedAgain), w, checks).0.groups) == 0
  {
    var later, w := env.(refuses := refuses), Run(rows, nextId, map[], [], existing);
    assert checks[..|checks|] == checks;
    PlacedStands(env, imported, w, checks, |checks|);
    var first := Before(env, imported, w, checks, |checks|);
    RecordedStays(env, rows, imported, again, importedAgain);
    forall c | c in checks && Asks(later, importedAgain, c) ensures Stands(later, again, c.groupPath) {
      var i :| 0 <= i < |checks| && checks[i] == c;
      assert PlacedAt(env, imported, w, checks, i);
      StandsMore(env, first.rows, again, c.groupPath);
      var id :| Reaches(env, again, c.groupPath, id);
      ReachesAlike(env, later, again, c.groupPath, id);
    }
    StandingIsFound(later, importedAgain, again, nextAgain, existingAgain, checks, |checks|);
  }

  // ----- where a group is created again -----

  const NOTHING: Rows := map[]

  /** A path of two new groups, into an empty table. */
  lemma BothMade(env: Env, name: string, sub: string)
    requires AcceptsGroups(env) && env.clip(name) == name != "" && env.clip(sub) == sub != ""
    ensures Resolve(env, BLANK, [name, sub]).after.rows == map[0 := GroupRow(name, None), 1 := GroupRow(sub, Some(0))]
    ensures Resolve(env, BLANK, [name, sub]).after.byPath == map[name := 0, PathKey([name, sub]) := 1]
    ensures Resolve(env, BLANK, [name, sub]).after.existing == map[]
    ensures Resolve(env, BLANK, [name, sub]).after.nextId == 2 && !Resolve(env, BLANK, [name, sub]).failed
    ensures Resolve(env, BLANK, [name, sub]).id == Some(1)
  {
    assert [name, sub][..1] == [name];
    assert !env.refuses(NOTHING, GroupRow(name, None));
    var first := Segment(env, BLANK, [name, sub], 0, None);
    var rows := map[0 := GroupRow(name, None)];
    assert first.Found? && first.after.rows == rows && first.after.byPath == map[name := 0] && first.id == Some(0);
    SecondSegment(env, first.after, name, sub, 0);
    assert !env.refuses(rows, GroupRow(sub, Some(0)));
    var second := Segment(env, first.after, [name, sub], 1, Some(0));
    assert second.Found? && second.id == Some(1);
    TwoSegments(env, BLANK, [name, sub]);
  }

  /** A path of one segment: cached, or new. */
  lemma OneSegment(env: Env, w: Run, name: string)
    requires AcceptsGroups(env) && env.clip(name) == name != ""
    requires name in w.byPath || GroupKey(env, None, name) !in w.existing
    ensures var placed := Resolve(env, w, [name]);
            if name in w.byPath then placed == Placed(w, Some(w.byPath[name]), false)
            else placed.after.rows == w.rows[w.nextId := GroupRow(name, None)]
                 && Carried(placed.after.groups) == Carried(w.groups) + 1
  {
    assert [name][..1] == [name] && PathKey([name]) == name;
    assert !env.refuses(w.rows, GroupRow(name, None));
    var s := Segment(env, w, [name], 0, None);
    CarriedPush(w.groups, GroupEntry(name, Importer.Created, Some(w.nextId)));
    assert ResolveFrom(env, s.after, [name], 1, s.id) == Found(s.after, s.id);
  }

  /** Importing the checks into an empty table leaves these rows. */
  ghost predicate Leaves(env: Env, checks: seq<Check>, rows: Rows) {
    ImportChecks(Importing(env, map[]), BLANK, checks).0.rows == rows
  }

  /** The import reports a group as created. */
  ghost predicate MakesGroup(env: Env, imported: Index, w: Run, checks: seq<Check>) {
    Carried(ImportChecks(Importing(env, imported), w, checks).0.groups) > 0
  }

  /** A group made for the first of two checks. */
  lemma MadeByFirst(env: Env, imported: Index, w: Run, a: Check, b: Check)
    requires AcceptsGroups(env) && Live(env, w) && Asks(env, imported, a)
    requires Carried(Resolve(env, w, a.groupPath).after.groups) > 0
    ensures MakesGroup(env, imported, w, [a, b])
  {
    CheckAfterPath(env, imported, w, a);
    CheckKeeps(env, imported, w, a);
    assert StepOk(env, Importing(env, imported), w, a);
    CheckGrows(env, imported, ImportCheck(env, imported, w, a).0, b);
    TwoChecks(Importing(env, imported), w, a, b);
  }

  /** A group made for the second of two checks when the first is recorded already. */
  lemma MadeBySecond(env: Env, imported: Index, w: Run, a: Check, b: Check)
    requires Live(env, w) && !Asks(env, imported, a) && Asks(env, imported, b)
    requires Carried(Resolve(env, w, b.groupPath).after.groups) > 0
    ensures MakesGroup(env, imported, w, [a, b])
  {
    CheckAfterPath(env, imported, w, a);
    CheckAfterPath(env, imported, w, b);
    TwoChecks(Importing(env, imported), w, a, b);
  }

  lemma ReadIsLive(env: Env, rows: Rows, nextId: nat, known: Index)
    requires Loaded(env, rows, known) && forall id :: id in rows ==> id < nextId
    ensures Live(env, Run(rows, nextId, map[], [], known))
  {
  }

  const UPPER := Check("1", ["A", "x"], false)
  const LOWER := Check("2", ["a"], false)

  /** What importing the two leaves in an empty table: twins. */
  const TWINS: Rows := map[0 := GroupRow("A", None), 1 := GroupRow("x", Some(0)), 2 := GroupRow("a", None)]

  lemma TwinsAreMade()
    ensures Leaves(PLAIN, [UPPER, LOWER], TWINS)
  {
    TwoChecks(Importing(PLAIN, map[]), BLANK, UPPER, LOWER);
    BothMade(PLAIN, "A", "x");
    var once := Resolve(PLAIN, BLANK, ["A", "x"]).after;
    assert PathKey(["A", "x"]) == "A/x" by { assert ["A", "x"][1..] == ["x"]; }
    OneSegment(PLAIN, once, "a");
  }

  lemma TwinsAreTorn()
    ensures Torn(PLAIN, TWINS, 0, 2, 1, "A", "x")
  {
    PlainIds();
    LacksKey(PLAIN, "A", None, 2, "x");
    LacksKey(PLAIN, "x", Some(0), 2, "x");
    LacksKey(PLAIN, "a", None, 2, "x");
  }

  /** The index may name either twin; if it names the second, the subgroup is not found. */
  lemma SecondTwinRead() returns (known: Index, w: Run)
    ensures Loaded(PLAIN, TWINS, known) && w == Run(TWINS, 3, map[], [], known) && Live(PLAIN, w)
    ensures Carried(Resolve(PLAIN, w, UPPER.groupPath).after.groups) == 1
  {
    TwinsAreTorn();
    known := LoadedNaming(PLAIN, TWINS, GroupKey(PLAIN, None, "A"), 2);
    assert GroupKey(PLAIN, Some(2), "x") !in known;
    CreatesSecond(PLAIN, TWINS, 3, known, 2, "A", "x");
    ReadIsLive(PLAIN, TWINS, 3, known);
    w := Run(TWINS, 3, map[], [], known);
  }

  lemma TwinsAreReadBadly() returns (known: Index)
    ensures Loaded(PLAIN, TWINS, known)
    ensures MakesGroup(PLAIN, map[], Run(TWINS, 3, map[], [], known), [UPPER, LOWER])
  {
    var w;
    known, w := SecondTwinRead();
    MadeByFirst(PLAIN, map[], w, UPPER, LOWER);
  }

  /** Two spellings of one name make two groups, and the next import of the same snapshot makes a third. */
  lemma TwinsAreMadeAgain() returns (known: Index)
    ensures Leaves(PLAIN, [UPPER, LOWER], TWINS)
    ensures Loaded(PLAIN, TWINS, known) && LoadedImports(PLAIN, TWINS, map[])
    ensures MakesGroup(PLAIN, map[], Run(TWINS, 3, map[], [], known), [UPPER, LOWER])
  {
    TwinsAreMade();
    known := TwinsAreReadBadly();
  }

  /** Builds the first of two checks and refuses the second. */
  const ONE_BUILT := Env("p", (c: Check) => if c.sourceId == "1" then Build("t", "u", "n", false) else Refused,
                         (s: string) => s, (rows: Rows, row: Row) => false, (t: string) => t, (t: string) => t,
                         (n: nat) => Digits(n))

  const NESTED := Check("1", ["a", "b"], false)
  const SLASHED := Check("2", ["a/b"], false)

  /** What importing the two leaves: no group `a/b`, since the second path used the first's entry. */
  const SHARED: Rows := map[0 := GroupRow("a", None), 1 := GroupRow("b", Some(0)),
                            2 := Row("t", "u", "n", Some(1), Some(Origin("p", "1")), false)]

  lemma NestedIsStored()
    ensures var once := ImportCheck(ONE_BUILT, map[], BLANK, NESTED).0;
            once.rows == SHARED && once.byPath == map["a" := 0, "a/b" := 1]
  {
    BothMade(ONE_BUILT, "a", "b");
    var placed := Resolve(ONE_BUILT, BLANK, ["a", "b"]);
    assert PathKey(["a", "b"]) == "a/b" by { assert ["a", "b"][1..] == ["b"]; }
    var row := Row("t", "u", "n", Some(1), Some(Origin("p", "1")), false);
    var changed := CheckCases(ONE_BUILT, map[], BLANK, NESTED);
    assert RowOf(ONE_BUILT, BLANK, NESTED) == row;
    assert Store(ONE_BUILT, placed.after, NESTED, row, changed).0.rows == SHARED;
  }

  lemma SharedIsMade()
    ensures Leaves(ONE_BUILT, [NESTED, SLASHED], SHARED)
  {
    NestedIsStored();
    var once := ImportCheck(ONE_BUILT, map[], BLANK, NESTED).0;
    TwoChecks(Importing(ONE_BUILT, map[]), BLANK, NESTED, SLASHED);
    OneSegment(ONE_BUILT, once, "a/b");
  }

  lemma SharedLacksSlashed(known: Index)
    requires Loaded(ONE_BUILT, SHARED, known)
    ensures GroupKey(ONE_BUILT, None, "a/b") !in known
  {
    var key := GroupKey(ONE_BUILT, None, "a/b");
    KeysDiffer("-", "a/b", "a", "a");
    KeysDiffer("-", "a/b", "b", "b");
    KeysDiffer("-", "a/b", "0", "b");
    JoinThree("group", "-", "a/b");
    JoinThree("group", "-", "a");
    JoinThree("t", "u", "n");
    assert !HasKey(ONE_BUILT, SHARED[0], key) && !HasKey(ONE_BUILT, SHARED[1], key) && !HasKey(ONE_BUILT, SHARED[2], key);
  }

  lemma NestedIsRecorded(imported: Index)
    requires LoadedImports(ONE_BUILT, SHARED, imported)
    ensures !Asks(ONE_BUILT, imported, NESTED) && Asks(ONE_BUILT, imported, SLASHED)
  {
    assert SHARED[2].origin == Some(Origin("p", "1"));
  }

  /** With a slash in a name, the second import asks for the second path alone, and makes the group it never made. */
  lemma SlashedIsMadeLater(known: Index, imported: Index)
    requires Loaded(ONE_BUILT, SHARED, known) && LoadedImports(ONE_BUILT, SHARED, imported)
    ensures Leaves(ONE_BUILT, [NESTED, SLASHED], SHARED)
    ensures MakesGroup(ONE_BUILT, imported, Run(SHARED, 3, map[], [], known), [NESTED, SLASHED])
  {
    SharedIsMade();
    SharedLacksSlashed(known);
    var w := Run(SHARED, 3, map[], [], known);
    ReadIsLive(ONE_BUILT, SHARED, 3, known);
    NestedIsRecorded(imported);
    OneSegment(ONE_BUILT, w, "a/b");
    MadeBySecond(ONE_BUILT, imported, w, NESTED, SLASHED);
  }
}
