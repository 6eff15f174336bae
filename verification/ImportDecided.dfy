/**
 * When the table decides what every import of it reports: exactly when no path leads to two groups.
 */
module ImportDecided {
  import opened Prelude
  import opened Text
  import opened Importer
  import opened ImporterLaws
  import opened ImportIndex
  import opened ImportCounts
  import opened ImportGroups

  /** The same engine reading another source, for another organisation's rules. */
  function Source(env: Env, provider: string, translate: Check -> Translation, refuses: (Rows, Row) -> bool): Env {
    Under(env, translate, refuses).(provider := provider)
  }

  /** Every import of these checks makes one report and one table, in whatever order the rows are read. */
  ghost predicate Decided(env: Env, rows: Rows, nextId: nat, checks: seq<Check>) {
    forall known, imports, known', imports' ::
      Loaded(env, rows, known) && LoadedImports(env, rows, imports)
      && Loaded(env, rows, known') && LoadedImports(env, rows, imports') ==>
        SameOutcome(env, rows, nextId, checks, known, imports, known', imports')
  }

  ghost predicate SameOutcome(env: Env, rows: Rows, nextId: nat, checks: seq<Check>, known: Index, imports: Index,
                              known': Index, imports': Index) {
    && Report(env, rows, nextId, checks, [], known, imports) == Report(env, rows, nextId, checks, [], known', imports')
    && TableAfter(env, rows, nextId, checks, known, imports) == TableAfter(env, rows, nextId, checks, known', imports')
  }

  /** Whatever source, snapshot, rules and refusals. */
  ghost predicate AlwaysDecided(env: Env, rows: Rows, nextId: nat) {
    forall provider, translate, refuses, checks :: Decided(Source(env, provider, translate, refuses), rows, nextId, checks)
  }

  ghost predicate LeadsOneWay(env: Env, rows: Rows, path: seq<string>) {
    forall a, b :: Reaches(env, rows, path, a) && Reaches(env, rows, path, b) ==> a == b
  }

  /** Every path leads to one group at most. */
  ghost predicate UniquePaths(env: Env, rows: Rows) {
    forall path :: LeadsOneWay(env, rows, path)
  }

  /** No row answers to a key below an id the table does not have. */
  ghost predicate Tied(env: Env, rows: Rows) {
    forall id, parent: nat, name ::
      id in rows && parent !in rows ==> !HasKey(env, rows[id], GroupKey(env, Some(parent), name))
  }

  // ----- one way: decided -----

  /** Where a group may be looked up: at the top, below a group a path leads to, and below a new row. */
  ghost function Parents(env: Env, rows: Rows, nextId: nat): iset<Option<nat>> {
    iset parent: Option<nat> | (exists path :: Reaches(env, rows, path, parent)) || (parent.Some? && parent.value >= nextId)
  }

  /** What is looked up below a group some path leads to, another path leads to. */
  lemma LookedIsReached(env: Env, rows: Rows, known: Index, path: seq<string>, parent: Option<nat>, name: string)
    requires Loaded(env, rows, known) && Reaches(env, rows, path, parent)
    requires env.clip(name) != "" && Looked(env, parent, name) in known
    ensures Reaches(env, rows, path + [name], Some(known[Looked(env, parent, name)]))
  {
    var longer := path + [name];
    assert longer[..|path|] == path && longer[..|longer|] == longer;
    ReachesChild(env, rows, longer, |path|, parent, known[Looked(env, parent, name)]);
  }

  lemma StartsClosed(env: Env, rows: Rows, nextId: nat, known: Index)
    requires Tied(env, rows) && Loaded(env, rows, known) && forall id :: id in rows ==> id < nextId
    ensures Closed(env, Parents(env, rows, nextId), Run(rows, nextId, map[], [], known))
  {
    var parents := Parents(env, rows, nextId);
    assert Reaches(env, rows, [], None);
    forall parent, name | parent in parents && env.clip(name) != "" && Looked(env, parent, name) in known
      ensures Some(known[Looked(env, parent, name)]) in parents
    {
      var path := PathTo(env, rows, nextId, known, parent, name);
      LookedIsReached(env, rows, known, path, parent, name);
    }
  }

  /** A parent under which something is found is one some path leads to. */
  lemma PathTo(env: Env, rows: Rows, nextId: nat, known: Index, parent: Option<nat>, name: string)
    returns (path: seq<string>)
    requires Tied(env, rows) && Loaded(env, rows, known) && forall id :: id in rows ==> id < nextId
    requires parent in Parents(env, rows, nextId) && Looked(env, parent, name) in known
    ensures Reaches(env, rows, path, parent)
  {
    assert HasKey(env, rows[known[Looked(env, parent, name)]], Looked(env, parent, name));
    path :| Reaches(env, rows, path, parent);
  }

  lemma SameBelow(env: Env, rows: Rows, nextId: nat, known: Index, known': Index, parent: Option<nat>, name: string)
    requires UniquePaths(env, rows) && Tied(env, rows) && forall id :: id in rows ==> id < nextId
    requires Loaded(env, rows, known) && Loaded(env, rows, known')
    requires parent in Parents(env, rows, nextId) && env.clip(name) != ""
    requires Looked(env, parent, name) in known && Looked(env, parent, name) in known'
    ensures known[Looked(env, parent, name)] == known'[Looked(env, parent, name)]
  {
    var path := PathTo(env, rows, nextId, known, parent, name);
    LookedIsReached(env, rows, known, path, parent, name);
    LookedIsReached(env, rows, known', path, parent, name);
    assert LeadsOneWay(env, rows, path + [name]);
  }

  lemma StartsAgree(env: Env, rows: Rows, nextId: nat, known: Index, known': Index)
    requires UniquePaths(env, rows) && Tied(env, rows) && forall id :: id in rows ==> id < nextId
    requires Loaded(env, rows, known) && Loaded(env, rows, known')
    ensures AgreeAt(env, Parents(env, rows, nextId), known, known')
  {
    LoadedSameKeys(env, rows, known, known');
    var parents := Parents(env, rows, nextId);
    forall parent, name | parent in parents && env.clip(name) != "" && Looked(env, parent, name) in known
                          && Looked(env, parent, name) in known'
      ensures known[Looked(env, parent, name)] == known'[Looked(env, parent, name)]
    {
      SameBelow(env, rows, nextId, known, known', parent, name);
    }
  }

  lemma StartsAlike(env: Env, rows: Rows, nextId: nat, known: Index, known': Index)
    requires UniquePaths(env, rows) && Tied(env, rows) && forall id :: id in rows ==> id < nextId
    requires Loaded(env, rows, known) && Loaded(env, rows, known')
    ensures Alike(env, Parents(env, rows, nextId), Run(rows, nextId, map[], [], known), Run(rows, nextId, map[], [], known'))
  {
    StartsClosed(env, rows, nextId, known);
    StartsAgree(env, rows, nextId, known, known');
  }

  lemma UniqueIsDecided(env: Env, rows: Rows, nextId: nat, checks: seq<Check>)
    requires UniquePaths(env, rows) && Tied(env, rows) && forall id :: id in rows ==> id < nextId
    ensures Decided(env, rows, nextId, checks)
  {
    forall known, imports, known', imports' |
      Loaded(env, rows, known) && LoadedImports(env, rows, imports)
      && Loaded(env, rows, known') && LoadedImports(env, rows, imports')
      ensures SameOutcome(env, rows, nextId, checks, known, imports, known', imports')
    {
      SameImports(env, rows, imports, imports');
      StartsAlike(env, rows, nextId, known, known');
      ReportsAlike(env, Parents(env, rows, nextId), rows, nextId, checks, [], known, imports, known', imports');
    }
  }

  /** Neither condition looks at the source, the rules or the refusals. */
  lemma SameForSource(env: Env, other: Env, rows: Rows)
    requires SameNames(env, other) && UniquePaths(env, rows) && Tied(env, rows)
    ensures UniquePaths(other, rows) && Tied(other, rows)
  {
    forall path ensures LeadsOneWay(other, rows, path) {
      assert LeadsOneWay(env, rows, path);
      SourceLeads(env, other, rows, path);
    }
    forall id, parent: nat, name | id in rows && parent !in rows
      ensures !HasKey(other, rows[id], GroupKey(other, Some(parent), name))
    {
      assert GroupKey(other, Some(parent), name) == GroupKey(env, Some(parent), name);
      assert !HasKey(env, rows[id], GroupKey(env, Some(parent), name));
    }
  }

  // ----- the other way: two groups on one path -----

  /** A shortest path to two groups: everything above them leads one way. */
  lemma {:induction false} ShortestFork(env: Env, rows: Rows, path: seq<string>) returns (fork: seq<string>)
    requires !LeadsOneWay(env, rows, path)
    ensures !LeadsOneWay(env, rows, fork) && forall d :: 0 <= d < |fork| ==> LeadsOneWay(env, rows, fork[..d])
    decreases |path|
  {
    if d :| 0 <= d < |path| && !LeadsOneWay(env, rows, path[..d]) {
      fork := ShortestFork(env, rows, path[..d]);
    } else {
      fork := path;
    }
  }

  /** A blank segment leads nowhere new. */
  lemma BlankStays(env: Env, rows: Rows, path: seq<string>, id: Option<nat>)
    requires path != [] && env.clip(path[|path| - 1]) == "" && Reaches(env, rows, path, id)
    ensures Reaches(env, rows, path[..|path| - 1], id)
  {
  }

  /** So a shortest fork does not end with one. */
  lemma ForkEndsNamed(env: Env, rows: Rows, fork: seq<string>, x: Option<nat>, y: Option<nat>)
    requires Reaches(env, rows, fork, x) && Reaches(env, rows, fork, y) && x != y
    requires forall d :: 0 <= d < |fork| ==> LeadsOneWay(env, rows, fork[..d])
    ensures fork != [] && env.clip(fork[|fork| - 1]) != ""
  {
    assert LeadsOneWay(env, rows, fork[..|fork| - 1]);
    if env.clip(fork[|fork| - 1]) == "" {
      BlankStays(env, rows, fork, x);
      BlankStays(env, rows, fork, y);
    }
  }

  /** The two groups, under one parent and one key. */
  lemma ForkTwins(env: Env, rows: Rows, fork: seq<string>) returns (parent: Option<nat>, a: nat, b: nat)
    requires !LeadsOneWay(env, rows, fork) && forall d :: 0 <= d < |fork| ==> LeadsOneWay(env, rows, fork[..d])
    ensures fork != [] && env.clip(fork[|fork| - 1]) != "" && Reaches(env, rows, fork[..|fork| - 1], parent)
    ensures a in rows && b in rows && a != b
    ensures HasKey(env, rows[a], Looked(env, parent, fork[|fork| - 1]))
    ensures HasKey(env, rows[b], Looked(env, parent, fork[|fork| - 1]))
  {
    var x, y :| Reaches(env, rows, fork, x) && Reaches(env, rows, fork, y) && x != y;
    ForkEndsNamed(env, rows, fork, x, y);
    var p := ParentOn(env, rows, fork, x);
    parent := ParentOn(env, rows, fork, y);
    assert LeadsOneWay(env, rows, fork[..|fork| - 1]);
    a, b := x.value, y.value;
  }

  lemma {:induction false} PathKeyLonger(path: seq<string>, d: nat)
    requires 0 < d < |path|
    ensures |PathKey(path[..d])| < |PathKey(path)|
    decreases d
  {
    if d == 1 {
      assert path[..1] == [path[0]];
    } else {
      assert path[..d][1..] == path[1..][..d - 1];
      PathKeyLonger(path[1..], d - 1);
    }
  }

  /** The proper leading parts of a path. */
  ghost function Above(path: seq<string>): iset<seq<string>> {
    iset d | 0 < d < |path| :: path[..d]
  }

  lemma AboveDistinct(path: seq<string>)
    ensures KeysDistinct(Above(path))
  {
    forall p, q | p in Above(path) && q in Above(path) && PathKey(p) == PathKey(q) ensures p == q {
      assert p == path[..|p|] && q == path[..|q|];
      if |p| < |q| {
        assert p == q[..|p|];
        PathKeyLonger(q, |p|);
      } else if |q| < |p| {
        assert q == p[..|q|];
        PathKeyLonger(p, |q|);
      }
    }
  }

  /** Every entry that is new is no longer than this. */
  ghost predicate NewWithin(before: Index, after: Index, length: nat) {
    forall k :: k in after ==> k in before || |k| <= length
  }

  lemma NewWithinOn(a: Index, b: Index, c: Index, length: nat)
    requires NewWithin(a, b, length) && NewWithin(b, c, length)
    ensures NewWithin(a, c, length)
  {
  }

  lemma SegmentKey(env: Env, w: Run, path: seq<string>, depth: nat, parent: Option<nat>, length: nat)
    requires depth < |path| && |PathKey(path[..depth + 1])| <= length
    ensures var s := Segment(env, w, path, depth, parent); s.Found? ==> NewWithin(w.byPath, s.after.byPath, length)
  {
  }

  /** Placing a path caches no key longer than its own. */
  lemma {:induction false} KeysWithin(env: Env, w: Run, path: seq<string>, depth: nat, parent: Option<nat>)
    requires depth <= |path|
    ensures var r := ResolveFrom(env, w, path, depth, parent);
            r.Found? ==> if path == [] then r.after == w else NewWithin(w.byPath, r.after.byPath, |PathKey(path)|)
    decreases |path| - depth
  {
    if depth < |path| {
      if depth + 1 < |path| {
        PathKeyLonger(path, depth + 1);
      } else {
        assert path[..depth + 1] == path;
      }
      SegmentKey(env, w, path, depth, parent, |PathKey(path)|);
      var s := Segment(env, w, path, depth, parent);
      if s.Found? {
        KeysWithin(env, s.after, path, depth + 1, s.id);
        var r := ResolveFrom(env, s.after, path, depth + 1, s.id);
        if r.Found? {
          NewWithinOn(w.byPath, s.after.byPath, r.after.byPath, |PathKey(path)|);
        }
      }
    }
  }

  /** A path is placed by placing all but its last segment, and then that. */
  lemma {:induction false} LastSegment(env: Env, w: Run, path: seq<string>, depth: nat, parent: Option<nat>)
    requires depth < |path|
    ensures var r := ResolveFrom(env, w, path[..|path| - 1], depth, parent);
            r.Found? ==> ResolveFrom(env, w, path, depth, parent) == Segment(env, r.after, path, |path| - 1, r.id)
    decreases |path| - depth
  {
    var last := |path| - 1;
    if depth == last {
      var s := Segment(env, w, path, last, parent);
      if s.Found? {
        assert ResolveFrom(env, s.after, path, last + 1, s.id) == Found(s.after, s.id);
      }
    } else {
      assert path[..last][..depth + 1] == path[..depth + 1];
      var s := Segment(env, w, path, depth, parent);
      assert s == Segment(env, w, path[..last], depth, parent);
      if s.Found? {
        LastSegment(env, s.after, path, depth + 1, s.id);
      }
    }
  }

  lemma AboveIsAmong(fork: seq<string>)
    requires fork != []
    ensures Among(Above(fork), fork[..|fork| - 1])
  {
    var outer := fork[..|fork| - 1];
    forall d | 0 < d <= |outer| ensures outer[..d] in Above(fork) {
      assert outer[..d] == fork[..d];
    }
  }

  lemma OwnKeyIsNew(env: Env, w: Run, path: seq<string>)
    requires w.byPath == map[] && path != []
    ensures var r := ResolveFrom(env, w, path[..|path| - 1], 0, None); r.Found? ==> PathKey(path) !in r.after.byPath
  {
    KeysWithin(env, w, path[..|path| - 1], 0, None);
    if |path| > 1 {
      PathKeyLonger(path, |path| - 1);
    }
  }

  /** Up to its last segment a fork is placed one way, and its own entry is not cached. */
  lemma OuterResolves(env: Env, rows: Rows, w: Run, fork: seq<string>, parent: Option<nat>)
    requires w.rows == rows && w.byPath == map[] && w.groups == [] && Loaded(env, rows, w.existing) && fork != []
    requires forall d :: 0 <= d < |fork| ==> LeadsOneWay(env, rows, fork[..d])
    requires Reaches(env, rows, fork[..|fork| - 1], parent)
    ensures var r := ResolveFrom(env, w, fork[..|fork| - 1], 0, None);
            && r.Found? && r.id == parent && PathKey(fork) !in r.after.byPath
            && r.after.rows == rows && r.after.nextId == w.nextId && r.after.existing == w.existing
  {
    var outer := fork[..|fork| - 1];
    AboveDistinct(fork);
    AboveIsAmong(fork);
    AboveIsRead(env, rows, w.existing, fork);
    assert outer[..0] == [];
    PathFinds(env, Above(fork), rows, w.existing, w, outer, 0, None);
    assert LeadsOneWay(env, rows, outer);
    OwnKeyIsNew(env, w, fork);
  }

  /** At the end of a fork an import takes whichever group its index names. */
  lemma ForkResolves(env: Env, rows: Rows, nextId: nat, known: Index, fork: seq<string>, parent: Option<nat>, id: nat)
    requires Loaded(env, rows, known) && fork != [] && env.clip(fork[|fork| - 1]) != ""
    requires forall d :: 0 <= d < |fork| ==> LeadsOneWay(env, rows, fork[..d])
    requires Reaches(env, rows, fork[..|fork| - 1], parent)
    requires Looked(env, parent, fork[|fork| - 1]) in known && known[Looked(env, parent, fork[|fork| - 1])] == id
    ensures var placed := Resolve(env, Run(rows, nextId, map[], [], known), fork);
            && placed.id == Some(id) && !placed.failed
            && placed.after.rows == rows && placed.after.nextId == nextId && placed.after.existing == known
  {
    var w := Run(rows, nextId, map[], [], known);
    OuterResolves(env, rows, w, fork, parent);
    assert fork[..|fork| - 1 + 1] == fork;
    LastSegment(env, w, fork, 0, None);
  }

  lemma AboveIsRead(env: Env, rows: Rows, known: Index, fork: seq<string>)
    requires Loaded(env, rows, known) && forall d :: 0 <= d < |fork| ==> LeadsOneWay(env, rows, fork[..d])
    ensures Read(env, Above(fork), rows, known)
  {
    forall q, a, b | q in Above(fork) && Reaches(env, rows, q, a) && Reaches(env, rows, q, b) ensures a == b {
      var d :| 0 < d < |fork| && q == fork[..d];
      assert LeadsOneWay(env, rows, fork[..d]);
    }
  }

  /** Some text is longer than all of these. */
  lemma {:induction false} FreshText(texts: set<string>) returns (t: string)
    ensures forall s :: s in texts ==> |s| < |t|
    decreases texts
  {
    if texts == {} {
      t := "";
    } else {
      var s :| s in texts;
      var rest := FreshText(texts - {s});
      t := rest + s + "!";
      forall other | other in texts ensures |other| < |t| {
        assert other == s || other in texts - {s};
      }
    }
  }

  /** The table a lone check leaves, once its path is placed and nothing stands in its way. */
  lemma LoneCheckStored(env: Env, rows: Rows, nextId: nat, known: Index, check: Check, checkType: string, id: nat)
    requires env.translate(check) == Build(checkType, "u", "n", false) && IdentityKey(env, checkType, "u", "n") !in known
    requires forall r :: r in rows && rows[r].origin.Some? ==> rows[r].origin.value.provider != env.provider
    requires forall row :: !env.refuses(rows, row)
    requires var placed := Resolve(env, Run(rows, nextId, map[], [], known), check.groupPath);
             && placed.id == Some(id) && placed.after.rows == rows && placed.after.nextId == nextId
             && placed.after.existing == known
    ensures var after := TableAfter(env, rows, nextId, [check], known, map[]);
            nextId in after && after[nextId].parent == Some(id)
  {
    var step, w := Importing(env, map[]), Run(rows, nextId, map[], [], known);
    assert [check][..0] == [] && ImportChecks(step, w, [check][..0]) == (w, []);
    assert ImportChecks(step, w, [check]).0 == step(w, check).0;
    var row := CheckRow(env, check, checkType, "u", "n", Some(id));
    assert !env.refuses(rows, row);
  }

  /** A source nothing in the table came from, whose checks are all built and never refused. */
  function Newcomer(env: Env, provider: string, checkType: string): Env {
    Source(env, provider, (c: Check) => Build(checkType, "u", "n", false), (rows: Rows, row: Row) => false)
  }

  /** Under either twin the check at the end of the fork is stored, below whichever the index names. */
  lemma ForkStored(env: Env, rows: Rows, nextId: nat, provider: string, checkType: string, known: Index,
                   fork: seq<string>, parent: Option<nat>, id: nat)
    requires Loaded(env, rows, known) && fork != [] && env.clip(fork[|fork| - 1]) != ""
    requires forall d :: 0 <= d < |fork| ==> LeadsOneWay(env, rows, fork[..d])
    requires Reaches(env, rows, fork[..|fork| - 1], parent)
    requires Looked(env, parent, fork[|fork| - 1]) in known && known[Looked(env, parent, fork[|fork| - 1])] == id
    requires env.translate == Newcomer(env, provider, checkType).translate && env.provider == provider
    requires forall row :: !env.refuses(rows, row)
    requires IdentityKey(env, checkType, "u", "n") !in known
    requires forall r :: r in rows && rows[r].origin.Some? ==> rows[r].origin.value.provider != provider
    ensures var after := TableAfter(env, rows, nextId, [Check("s", fork, false)], known, map[]);
            nextId in after && after[nextId].parent == Some(id)
  {
    ForkResolves(env, rows, nextId, known, fork, parent, id);
    LoneCheckStored(env, rows, nextId, known, Check("s", fork, false), checkType, id);
  }

  lemma LongTypeIsNew(env: Env, known: Index, checkType: string)
    requires forall k :: k in known ==> |k| < |checkType|
    ensures IdentityKey(env, checkType, "u", "n") !in known
  {
    JoinThree(checkType, env.fold("u"), env.fold("n"));
  }

  /** Nothing in the table came from a provider with a longer name than all of theirs. */
  lemma NewProvider(rows: Rows) returns (provider: string)
    ensures forall r :: r in rows && rows[r].origin.Some? ==> rows[r].origin.value.provider != provider
  {
    provider := FreshText(set r | r in rows && rows[r].origin.Some? :: rows[r].origin.value.provider);
  }

  /** A fork makes two imports of one check differ. */
  lemma ForkIsNotDecided(env: Env, rows: Rows, nextId: nat, provider: string, checkType: string, fork: seq<string>,
                         parent: Option<nat>, known: Index, known': Index)
    requires env.translate == Newcomer(env, provider, checkType).translate && env.provider == provider
    requires forall row :: !env.refuses(rows, row)
    requires forall r :: r in rows && rows[r].origin.Some? ==> rows[r].origin.value.provider != provider
    requires Loaded(env, rows, known) && Loaded(env, rows, known') && forall k :: k in known ==> |k| < |checkType|
    requires fork != [] && env.clip(fork[|fork| - 1]) != "" && Reaches(env, rows, fork[..|fork| - 1], parent)
    requires forall d :: 0 <= d < |fork| ==> LeadsOneWay(env, rows, fork[..d])
    requires var key := Looked(env, parent, fork[|fork| - 1]); key in known && key in known' && known[key] != known'[key]
    ensures !Decided(env, rows, nextId, [Check("s", fork, false)])
  {
    var key := Looked(env, parent, fork[|fork| - 1]);
    LoadedSameKeys(env, rows, known, known');
    LongTypeIsNew(env, known, checkType);
    ForkStored(env, rows, nextId, provider, checkType, known, fork, parent, known[key]);
    ForkStored(env, rows, nextId, provider, checkType, known', fork, parent, known'[key]);
    assert LoadedImports(env, rows, map[]);
    assert !SameOutcome(env, rows, nextId, [Check("s", fork, false)], known, map[], known', map[]);
  }

  lemma ForkTells(env: Env, rows: Rows, nextId: nat, path: seq<string>)
    requires !LeadsOneWay(env, rows, path)
    ensures !AlwaysDecided(env, rows, nextId)
  {
    var fork := ShortestFork(env, rows, path);
    var parent, a, b := ForkTwins(env, rows, fork);
    var key := Looked(env, parent, fork[|fork| - 1]);
    var known := LoadedNaming(env, rows, key, a);
    var known' := LoadedNaming(env, rows, key, b);
    var provider := NewProvider(rows);
    var checkType := FreshText(known.Keys);
    var source := Newcomer(env, provider, checkType);
    SourceReads(env, source, rows, known);
    SourceReads(env, source, rows, known');
    SourceForks(env, source, rows, fork, parent);
    ForkIsNotDecided(source, rows, nextId, provider, checkType, fork, parent, known, known');
  }

  lemma SourceReads(env: Env, source: Env, rows: Rows, known: Index)
    requires SameNames(env, source) && Loaded(env, rows, known)
    ensures Loaded(source, rows, known)
  {
    forall row, k ensures HasKey(source, row, k) == HasKey(env, row, k) {
    }
  }

  lemma SourceForks(env: Env, source: Env, rows: Rows, fork: seq<string>, parent: Option<nat>)
    requires SameNames(env, source) && forall d :: 0 <= d < |fork| ==> LeadsOneWay(env, rows, fork[..d])
    requires fork != [] && Reaches(env, rows, fork[..|fork| - 1], parent)
    ensures forall d :: 0 <= d < |fork| ==> LeadsOneWay(source, rows, fork[..d])
    ensures Reaches(source, rows, fork[..|fork| - 1], parent)
  {
    ReachesAlike(env, source, rows, fork[..|fork| - 1], parent);
    forall d | 0 <= d < |fork| ensures LeadsOneWay(source, rows, fork[..d]) {
      assert LeadsOneWay(env, rows, fork[..d]);
      SourceLeads(env, source, rows, fork[..d]);
    }
  }

  lemma SourceLeads(env: Env, source: Env, rows: Rows, path: seq<string>)
    requires SameNames(env, source) && LeadsOneWay(env, rows, path)
    ensures LeadsOneWay(source, rows, path)
  {
    forall a, b | Reaches(source, rows, path, a) && Reaches(source, rows, path, b) ensures a == b {
      ReachesAlike(source, env, rows, path, a);
      ReachesAlike(source, env, rows, path, b);
    }
  }

  /**
   * One engine and one table: every import, from whatever source, makes one report and one table whatever
   * order the rows are read in, exactly when every path leads to one group at most.
   */
  lemma DecidedIffUniquePaths(env: Env, rows: Rows, nextId: nat)
    requires Tied(env, rows) && forall id :: id in rows ==> id < nextId
    ensures AlwaysDecided(env, rows, nextId) <==> UniquePaths(env, rows)
  {
    if UniquePaths(env, rows) {
      forall provider, translate, refuses, checks
        ensures Decided(Source(env, provider, translate, refuses), rows, nextId, checks)
      {
        var source := Source(env, provider, translate, refuses);
        SameForSource(env, source, rows);
        UniqueIsDecided(source, rows, nextId, checks);
      }
    } else {
      var path :| !LeadsOneWay(env, rows, path);
      ForkTells(env, rows, nextId, path);
    }
  }
}
