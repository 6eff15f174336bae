/**
 * Dispatch of due monitors: the due condition, the lease-shaped claim, the follow-up
 * reservation, and the run of both beside recorded checks and edits.
 */
module Dispatch {
  import opened Prelude

  /** The columns of a monitor row that the scheduler reads. */
  datatype Row = Row(scheduled: bool, paused: bool, nextAt: Option<Time>, claimedUntil: Option<Time>)

  type Rows = map<nat, Row>

  const TICK_GRACE_MS := 30_000
  const CLAIM_CHUNK: nat := 1_000

  /** Nobody holds the right to enqueue this monitor. */
  predicate Free(row: Row, now: Time) {
    row.claimedUntil.None? || row.claimedUntil.value <= now
  }

  /** `dueCondition`: an unpaused, scheduled, free monitor whose time has come, give or take half a tick. */
  predicate Due(row: Row, now: Time) {
    && !row.paused
    && row.scheduled
    && (row.nextAt.None? || row.nextAt.value - TICK_GRACE_MS <= now)
    && Free(row, now)
  }

  // ----- the statements -----

  /** The rows one claim statement takes: due ones among `ids` that no other transaction has locked. */
  function Claimed(rows: Rows, ids: seq<nat>, locked: set<nat>, now: Time): (taken: set<nat>) {
    set id | id in ids && id in rows && id !in locked && Due(rows[id], now)
  }

  function Leased(rows: Rows, taken: set<nat>, until: Time): Rows {
    map id | id in rows :: if id in taken then rows[id].(claimedUntil := Some(until)) else rows[id]
  }

  function Claim(rows: Rows, ids: seq<nat>, locked: set<nat>, now: Time, leaseMs: nat): Rows {
    Leased(rows, Claimed(rows, ids, locked, now), now + leaseMs)
  }

  /** The reservation asks only whether the monitor is free and running, not whether it is due. */
  predicate Reservable(rows: Rows, id: nat, now: Time) {
    id in rows && !rows[id].paused && Free(rows[id], now)
  }

  function Reserve(rows: Rows, id: nat, now: Time, leaseMs: nat): Rows {
    Leased(rows, if Reservable(rows, id, now) then {id} else {}, now + leaseMs)
  }

  // ----- runs -----

  /** A dispatch right handed out: until when, and whether its own check has been recorded. */
  datatype Grant = Grant(monitor: nat, until: Time, spent: bool)

  datatype State = State(rows: Rows, known: set<nat>, grants: seq<Grant>, clock: Time)

  /**
   * One transaction or the passing of time. Statements read a clock taken when their transaction
   * began, which may lie behind the clock at which they commit. A recorded check may belong to a
   * right handed out earlier, `owner`, or to none.
   */
  datatype Step =
    | Wait(to: Time)
    | ClaimStep(ids: seq<nat>, locked: set<nat>, now: Time, lease: nat)
    | ReserveStep(id: nat, now: Time, lease: nat)
    | RecordStep(id: nat, owner: Option<nat>, nextAt: Option<Time>)
    | EditStep(id: nat, paused: bool, scheduled: bool, nextAt: Option<Time>)
    | CreateStep(id: nat, row: Row)
    | DeleteStep(id: nat)

  const EMPTY := State(map[], {}, [], 0)

  ghost predicate Possible(s: State, step: Step) {
    match step
    case Wait(to) => s.clock <= to
    case ClaimStep(_, _, now, _) => now <= s.clock
    case ReserveStep(_, now, _) => now <= s.clock
    case RecordStep(id, owner, _) => owner.Some? ==> owner.value < |s.grants| && s.grants[owner.value].monitor == id
    case CreateStep(id, row) => id !in s.known && row.claimedUntil.None?
    case _ => true
  }

  /** One right per taken monitor, in the order the statement named them. */
  function GrantsFor(ids: seq<nat>, taken: set<nat>, until: Time): (r: seq<Grant>)
    requires forall id :: id in taken ==> id in ids
    ensures forall g :: g in r ==> g.monitor in taken && g.until == until && !g.spent
    ensures forall i, j :: 0 <= i < j < |r| ==> r[i].monitor != r[j].monitor
    ensures forall id :: id in taken ==> Grant(id, until, false) in r
  {
    if ids == [] then []
    else if ids[0] in taken then [Grant(ids[0], until, false)] + GrantsFor(ids[1..], taken - {ids[0]}, until)
    else GrantsFor(ids[1..], taken, until)
  }

  /** A recorded check spends its own right. */
  function Spend(grants: seq<Grant>, owner: Option<nat>): seq<Grant> {
    if owner.Some? && owner.value < |grants| then grants[owner.value := grants[owner.value].(spent := true)] else grants
  }

  /** The check's update matches the row, and clears the claim whoever holds it. */
  predicate Applies(s: State, id: nat) {
    id in s.rows && !s.rows[id].paused
  }

  function Next(s: State, step: Step): State {
    match step
    case Wait(to) => s.(clock := to)
    case ClaimStep(ids, locked, now, lease) =>
      s.(rows := Claim(s.rows, ids, locked, now, lease),
         grants := s.grants + GrantsFor(ids, Claimed(s.rows, ids, locked, now), now + lease))
    case ReserveStep(id, now, lease) =>
      s.(rows := Reserve(s.rows, id, now, lease),
         grants := s.grants + GrantsFor([id], if Reservable(s.rows, id, now) then {id} else {}, now + lease))
    case RecordStep(id, owner, nextAt) =>
      if !Applies(s, id) then s
      else s.(rows := s.rows[id := s.rows[id].(nextAt := nextAt, claimedUntil := None)],
              grants := Spend(s.grants, owner))
    case EditStep(id, paused, scheduled, nextAt) =>
      if id !in s.rows then s
      else s.(rows := s.rows[id := s.rows[id].(paused := paused, scheduled := scheduled, nextAt := nextAt)])
    case CreateStep(id, row) => s.(rows := s.rows[id := row], known := s.known + {id})
    case DeleteStep(id) => s.(rows := s.rows - {id})
  }

  ghost predicate PossibleRun(s: State, steps: seq<Step>)
    decreases |steps|
  {
    steps == [] || (Possible(s, steps[0]) && PossibleRun(Next(s, steps[0]), steps[1..]))
  }

  function Run(s: State, steps: seq<Step>): State
    decreases |steps|
  {
    if steps == [] then s else Run(Next(s, steps[0]), steps[1..])
  }

  // ----- at most one live right per monitor -----

  predicate Live(g: Grant, clock: Time) {
    !g.spent && clock < g.until
  }

  ghost predicate OneLive(grants: seq<Grant>, clock: Time) {
    forall i, j :: 0 <= i < j < |grants| && Live(grants[i], clock) && Live(grants[j], clock) ==>
      grants[i].monitor != grants[j].monitor
  }

  /** A live right is written on its row, so no statement that reads the row takes it again. */
  ghost predicate Written(rows: Rows, grants: seq<Grant>, clock: Time) {
    forall g :: g in grants && Live(g, clock) && g.monitor in rows ==> rows[g.monitor].claimedUntil == Some(g.until)
  }

  /** And a lease still running on a row is somebody's live right. */
  ghost predicate Backed(rows: Rows, grants: seq<Grant>, clock: Time) {
    forall id :: id in rows && rows[id].claimedUntil.Some? && clock < rows[id].claimedUntil.value ==>
      Grant(id, rows[id].claimedUntil.value, false) in grants
  }

  ghost predicate Inv(s: State) {
    && OneLive(s.grants, s.clock)
    && Written(s.rows, s.grants, s.clock)
    && Backed(s.rows, s.grants, s.clock)
    && (forall id :: id in s.rows ==> id in s.known)
    && (forall g :: g in s.grants ==> g.monitor in s.known)
  }

  /** What is free at some reading of the clock up to now is held by nobody. */
  lemma FreeIsUnheld(s: State, id: nat, now: Time, g: Grant)
    requires Inv(s) && now <= s.clock && id in s.rows && Free(s.rows[id], now) && g in s.grants && Live(g, s.clock)
    ensures g.monitor != id
  {
  }

  lemma StillOne(grants: seq<Grant>, added: seq<Grant>, clock: Time)
    requires OneLive(grants, clock) && OneLive(added, clock)
    requires forall g, h :: g in grants && h in added && Live(g, clock) ==> g.monitor != h.monitor
    ensures OneLive(grants + added, clock)
  {
    var all := grants + added;
    forall i, j | 0 <= i < j < |all| && Live(all[i], clock) && Live(all[j], clock)
      ensures all[i].monitor != all[j].monitor
    {
      if i < |grants| <= j {
        assert all[i] in grants && all[j] in added;
      }
    }
  }

  lemma TakingKeeps(s: State, ids: seq<nat>, taken: set<nat>, now: Time, until: Time, after: State)
    requires Inv(s) && now <= s.clock && forall id :: id in taken ==> id in ids
    requires forall id :: id in taken ==> id in s.rows && Free(s.rows[id], now)
    requires after == State(Leased(s.rows, taken, until), s.known, s.grants + GrantsFor(ids, taken, until), s.clock)
    ensures Inv(after)
  {
    var added, rows := GrantsFor(ids, taken, until), Leased(s.rows, taken, until);
    forall g, id | g in s.grants && id in taken && Live(g, s.clock) ensures g.monitor != id {
      FreeIsUnheld(s, id, now, g);
    }
    StillOne(s.grants, added, s.clock);
    assert Written(rows, s.grants + added, s.clock);
    forall id | id in rows && rows[id].claimedUntil.Some? && s.clock < rows[id].claimedUntil.value
      ensures Grant(id, rows[id].claimedUntil.value, false) in s.grants + added
    {
      if id in taken {
        assert Grant(id, until, false) in added;
      } else {
        assert Grant(id, s.rows[id].claimedUntil.value, false) in s.grants;
      }
    }
  }

  /** A check is recorded while somebody else holds a live right to its monitor, and frees it. */
  ghost predicate Foreign(s: State, step: Step) {
    && step.RecordStep? && Applies(s, step.id)
    && exists k: nat :: k < |s.grants| && Live(s.grants[k], s.clock) && s.grants[k].monitor == step.id
                        && step.owner != Some(k)
  }

  lemma RecordKeeps(s: State, id: nat, owner: Option<nat>, nextAt: Option<Time>)
    requires Inv(s) && Possible(s, RecordStep(id, owner, nextAt)) && !Foreign(s, RecordStep(id, owner, nextAt))
    ensures Inv(Next(s, RecordStep(id, owner, nextAt)))
  {
    var after := Next(s, RecordStep(id, owner, nextAt));
    forall g | g in after.grants
      ensures g.monitor in s.known && (Live(g, s.clock) ==> g in s.grants)
      ensures Applies(s, id) && Live(g, s.clock) ==> g.monitor != id
    {
      var k: nat :| k < |after.grants| && after.grants[k] == g;
      assert s.grants[k] in s.grants;
    }
    if Applies(s, id) {
      forall g | g in s.grants && g.monitor != id ensures g in after.grants {
        var k :| 0 <= k < |s.grants| && s.grants[k] == g;
        assert after.grants[k] == g;
      }
    }
  }

  lemma EditKeeps(s: State, step: Step)
    requires Inv(s) && Possible(s, step) && !step.ClaimStep? && !step.ReserveStep? && !step.RecordStep?
    ensures Inv(Next(s, step))
  {
  }

  lemma ClaimedIsFree(rows: Rows, ids: seq<nat>, locked: set<nat>, now: Time)
    ensures forall id :: id in Claimed(rows, ids, locked, now) ==> id in ids && id in rows && Free(rows[id], now)
  {
  }

  lemma ClaimKeeps(s: State, ids: seq<nat>, locked: set<nat>, now: Time, lease: nat)
    requires Inv(s) && now <= s.clock
    ensures Inv(Next(s, ClaimStep(ids, locked, now, lease)))
  {
    ClaimedIsFree(s.rows, ids, locked, now);
    TakingKeeps(s, ids, Claimed(s.rows, ids, locked, now), now, now + lease, Next(s, ClaimStep(ids, locked, now, lease)));
  }

  lemma ReserveKeeps(s: State, id: nat, now: Time, lease: nat)
    requires Inv(s) && now <= s.clock
    ensures Inv(Next(s, ReserveStep(id, now, lease)))
  {
    TakingKeeps(s, [id], if Reservable(s.rows, id, now) then {id} else {}, now, now + lease,
                Next(s, ReserveStep(id, now, lease)));
  }

  lemma StepKeeps(s: State, step: Step)
    requires Inv(s) && Possible(s, step) && !Foreign(s, step)
    ensures Inv(Next(s, step))
  {
    if step.ClaimStep? {
      ClaimKeeps(s, step.ids, step.locked, step.now, step.lease);
    } else if step.ReserveStep? {
      ReserveKeeps(s, step.id, step.now, step.lease);
    } else if step.RecordStep? {
      RecordKeeps(s, step.id, step.owner, step.nextAt);
    } else {
      EditKeeps(s, step);
    }
  }

  ghost predicate NoForeign(s: State, steps: seq<Step>)
    decreases |steps|
  {
    steps == [] || (!Foreign(s, steps[0]) && NoForeign(Next(s, steps[0]), steps[1..]))
  }

  lemma {:induction false} RunKeeps(s: State, steps: seq<Step>)
    requires Inv(s) && PossibleRun(s, steps) && NoForeign(s, steps)
    ensures Inv(Run(s, steps))
    decreases |steps|
  {
    if steps != [] {
      StepKeeps(s, steps[0]);
      RunKeeps(Next(s, steps[0]), steps[1..]);
    }
  }

  /**
   * Exclusion. However claims, reservations, checks and edits interleave, and however stale the
   * clocks they read, no monitor has two rights out that are neither expired nor spent, and a row is
   * free exactly when none is, as long as no check is recorded under somebody else's right.
   */
  lemma AtMostOneLiveRight(steps: seq<Step>)
    requires PossibleRun(EMPTY, steps) && NoForeign(EMPTY, steps)
    ensures var s := Run(EMPTY, steps);
            && (forall i, j :: 0 <= i < j < |s.grants| && Live(s.grants[i], s.clock) && Live(s.grants[j], s.clock) ==>
                  s.grants[i].monitor != s.grants[j].monitor)
            && (forall id :: id in s.rows ==>
                  (Free(s.rows[id], s.clock) <==>
                   forall g :: g in s.grants && Live(g, s.clock) ==> g.monitor != id))
  {
    RunKeeps(EMPTY, steps);
    var s := Run(EMPTY, steps);
    forall id | id in s.rows && !Free(s.rows[id], s.clock)
      ensures exists g :: g in s.grants && Live(g, s.clock) && g.monitor == id
    {
      assert Live(Grant(id, s.rows[id].claimedUntil.value, false), s.clock);
    }
  }

  /** A check recorded while its own right is live is never such a check. */
  lemma TimelyIsNotForeign(s: State, id: nat, k: nat, nextAt: Option<Time>)
    requires Inv(s) && k < |s.grants| && s.grants[k].monitor == id && Live(s.grants[k], s.clock)
    ensures !Foreign(s, RecordStep(id, Some(k), nextAt))
  {
  }

  /** No right is out twice, and no single next step can make it so. */
  ghost predicate Exclusive(s: State) {
    && OneLive(s.grants, s.clock)
    && forall next :: Possible(s, next) ==> OneLive(Next(s, next).grants, Next(s, next).clock)
  }

  lemma InvIsExclusive(s: State)
    requires Inv(s)
    ensures Exclusive(s)
  {
    forall next | Possible(s, next) ensures OneLive(Next(s, next).grants, Next(s, next).clock) {
      if !next.RecordStep? {
        StepKeeps(s, next);
      }
    }
  }

  /** After such a check a reservation hands the monitor out a second time. */
  lemma ForeignIsNotExclusive(s: State, step: Step)
    requires Inv(s) && Possible(s, step) && Foreign(s, step)
    ensures !Exclusive(Next(s, step))
  {
    var after := Next(s, step);
    var k: nat :| k < |s.grants| && Live(s.grants[k], s.clock) && s.grants[k].monitor == step.id && step.owner != Some(k);
    assert after.grants[k] == s.grants[k];
    var again := ReserveStep(step.id, after.clock, 1);
    var twice := Next(after, again);
    assert Reservable(after.rows, step.id, after.clock);
    var added := GrantsFor([step.id], {step.id}, after.clock + 1);
    assert Grant(step.id, after.clock + 1, false) in added;
    assert twice.grants == after.grants + added && added[0] == twice.grants[|after.grants|];
    assert Live(twice.grants[k], twice.clock) && Live(twice.grants[|after.grants|], twice.clock);
    assert !OneLive(twice.grants, twice.clock);
  }

  ghost predicate AlwaysExclusive(s: State, steps: seq<Step>)
    decreases |steps|
  {
    Exclusive(s) && (steps == [] || AlwaysExclusive(Next(s, steps[0]), steps[1..]))
  }

  /** Over a whole run: exclusion holds throughout and cannot be broken in one step, exactly when no check is foreign. */
  lemma {:induction false} ExclusiveIffNoForeign(s: State, steps: seq<Step>)
    requires Inv(s) && PossibleRun(s, steps)
    ensures AlwaysExclusive(s, steps) <==> NoForeign(s, steps)
    decreases |steps|
  {
    InvIsExclusive(s);
    if steps != [] {
      if Foreign(s, steps[0]) {
        ForeignIsNotExclusive(s, steps[0]);
      } else {
        StepKeeps(s, steps[0]);
        ExclusiveIffNoForeign(Next(s, steps[0]), steps[1..]);
      }
    }
  }

  const READY := Row(true, false, None, None)

  /** Two leases pass over one monitor: claimed until 90 s, and again until 180 s. */
  function Reclaimed(): State {
    State(map[0 := READY.(claimedUntil := Some(180_000))], {0}, [Grant(0, 90_000, false), Grant(0, 180_000, false)], 90_000)
  }

  function ClaimAt(now: Time): Step { ClaimStep([0], {}, now, 90_000) }

  lemma ClaimedOnce()
    ensures var s1 := State(map[0 := READY], {0}, [], 0);
            Next(s1, ClaimAt(0)) == State(map[0 := READY.(claimedUntil := Some(90_000))], {0}, [Grant(0, 90_000, false)], 0)
  {
    OneClaim(State(map[0 := READY], {0}, [], 0), 0);
  }

  lemma ClaimedTwice()
    ensures var s3 := State(map[0 := READY.(claimedUntil := Some(90_000))], {0}, [Grant(0, 90_000, false)], 90_000);
            Next(s3, ClaimAt(90_000)) == Reclaimed()
  {
    OneClaim(State(map[0 := READY.(claimedUntil := Some(90_000))], {0}, [Grant(0, 90_000, false)], 90_000), 90_000);
  }

  lemma ReclaimedReached()
    ensures var steps := [CreateStep(0, READY), ClaimAt(0), Wait(90_000), ClaimAt(90_000)];
            PossibleRun(EMPTY, steps) && Run(EMPTY, steps) == Reclaimed()
  {
    assert Next(EMPTY, CreateStep(0, READY)) == State(map[0 := READY], {0}, [], 0);
    ClaimedOnce();
    ClaimedTwice();
    FourSteps(EMPTY, CreateStep(0, READY), ClaimAt(0), Wait(90_000), ClaimAt(90_000));
  }

  lemma OneClaim(s: State, now: Time)
    requires 0 in s.rows && Due(s.rows[0], now)
    ensures Next(s, ClaimAt(now)) == s.(rows := s.rows[0 := s.rows[0].(claimedUntil := Some(now + 90_000))],
                                        grants := s.grants + [Grant(0, now + 90_000, false)])
  {
    var taken := Claimed(s.rows, [0], {}, now);
    assert taken == {0};
    assert Leased(s.rows, taken, now + 90_000) == s.rows[0 := s.rows[0].(claimedUntil := Some(now + 90_000))];
    assert GrantsFor([0], taken, now + 90_000) == [Grant(0, now + 90_000, false)] + GrantsFor([], {}, now + 90_000);
  }

  lemma OneStep(s: State, a: Step, rest: seq<Step>)
    ensures Run(s, [a] + rest) == Run(Next(s, a), rest)
    ensures PossibleRun(s, [a] + rest) <==> Possible(s, a) && PossibleRun(Next(s, a), rest)
  {
    assert ([a] + rest)[1..] == rest;
  }

  lemma FourSteps(s: State, a: Step, b: Step, c: Step, d: Step)
    ensures Run(s, [a, b, c, d]) == Next(Next(Next(Next(s, a), b), c), d)
    ensures PossibleRun(s, [a, b, c, d]) <==>
              && Possible(s, a) && Possible(Next(s, a), b) && Possible(Next(Next(s, a), b), c)
              && Possible(Next(Next(Next(s, a), b), c), d)
  {
    assert [a, b, c, d] == [a] + ([b] + ([c] + ([d] + [])));
    var s1, s2, s3 := Next(s, a), Next(Next(s, a), b), Next(Next(Next(s, a), b), c);
    OneStep(s, a, [b] + ([c] + ([d] + [])));
    OneStep(s1, b, [c] + ([d] + []));
    OneStep(s2, c, [d] + []);
    OneStep(s3, d, []);
  }

  /** The first job's check, recorded after its lease, frees the monitor under the second: a third job goes out beside it. */
  lemma OverdueCheckBreaks()
    ensures var late := RecordStep(0, Some(0), None);
            && Possible(Reclaimed(), late) && Foreign(Reclaimed(), late)
            && !OneLive(Next(Next(Reclaimed(), late), ClaimAt(90_000)).grants, 90_000)
  {
    var late := RecordStep(0, Some(0), None);
    assert Live(Reclaimed().grants[1], 90_000);
    var freed := Next(Reclaimed(), late);
    OneClaim(freed, 90_000);
    var twice := Next(freed, ClaimAt(90_000));
    assert twice.grants[1] == Grant(0, 180_000, false) && twice.grants[2] == Grant(0, 180_000, false);
  }

  // ----- a dropped job -----

  /** The step leaves this monitor's row alone. */
  ghost predicate Passes(s: State, step: Step, id: nat) {
    match step
    case Wait(_) => true
    case ClaimStep(ids, locked, now, _) => id !in Claimed(s.rows, ids, locked, now)
    case ReserveStep(other, now, _) => !(other == id && Reservable(s.rows, id, now))
    case RecordStep(other, _, _) => other != id
    case EditStep(other, _, _, _) => other != id
    case CreateStep(other, _) => other != id
    case DeleteStep(other) => other != id
  }

  ghost predicate PassesRun(s: State, steps: seq<Step>, id: nat)
    decreases |steps|
  {
    steps == [] || (Passes(s, steps[0], id) && PassesRun(Next(s, steps[0]), steps[1..], id))
  }

  lemma {:induction false} RowStays(s: State, steps: seq<Step>, id: nat)
    requires id in s.rows && PossibleRun(s, steps) && PassesRun(s, steps, id)
    ensures id in Run(s, steps).rows && Run(s, steps).rows[id] == s.rows[id] && s.clock <= Run(s, steps).clock
    decreases |steps|
  {
    if steps != [] {
      RowStays(Next(s, steps[0]), steps[1..], id);
    }
  }

  /**
   * A dropped job does not take its monitor with it. Nothing having happened to a claimed monitor
   * since, it is due again exactly when its lease has ended, so a claim at that time takes it.
   */
  lemma DroppedJobReturns(s: State, claim: Step, steps: seq<Step>, id: nat)
    requires claim.ClaimStep? && Possible(s, claim) && id in Claimed(s.rows, claim.ids, claim.locked, claim.now)
    requires PossibleRun(Next(s, claim), steps) && PassesRun(Next(s, claim), steps, id)
    ensures var later := Run(Next(s, claim), steps);
            id in later.rows && (Due(later.rows[id], later.clock) <==> claim.now + claim.lease <= later.clock)
  {
    RowStays(Next(s, claim), steps, id);
  }

  // ----- the claim in chunks -----

  /** Claiming in two statements that read one clock takes what one statement would have taken. */
  lemma ClaimSplits(rows: Rows, first: seq<nat>, second: seq<nat>, locked: set<nat>, now: Time, lease: nat)
    ensures var between := Claim(rows, first, locked, now, lease);
            && Claim(between, second, locked, now, lease) == Claim(rows, first + second, locked, now, lease)
            && Claimed(rows, first, locked, now) + Claimed(between, second, locked, now)
               == Claimed(rows, first + second, locked, now)
            && (lease > 0 ==> Claimed(rows, first, locked, now) !! Claimed(between, second, locked, now))
  {
    var between := Claim(rows, first, locked, now, lease);
    forall id | id in rows ensures
        Claim(between, second, locked, now, lease)[id] == Claim(rows, first + second, locked, now, lease)[id]
    {
    }
  }

  /** What one chunk's statement finds: its clock, the rows locked elsewhere, and the rows as others left them. */
  datatype Moment = Moment(now: Time, locked: set<nat>, others: Rows -> Rows)

  /** The rows and the ids taken when the ids from `start` on run in chunks, chunk `k` at moment `k`. */
  function ChunkedClaim(rows: Rows, ids: seq<nat>, start: nat, at: nat -> Moment, k: nat, lease: nat): (Rows, set<nat>)
    requires start <= |ids|
    decreases |ids| - start
  {
    if start == |ids| then (rows, {})
    else
      var end := Min(start + CLAIM_CHUNK, |ids|);
      var found := at(k).others(rows);
      var rest := ChunkedClaim(Claim(found, ids[start..end], at(k).locked, at(k).now, lease), ids, end, at, k + 1, lease);
      (rest.0, Claimed(found, ids[start..end], at(k).locked, at(k).now) + rest.1)
  }

  /** With nobody else writing and one clock, the chunks together take what one unbounded statement would. */
  lemma {:induction false} ChunksRefineOneClaim(rows: Rows, ids: seq<nat>, start: nat, quiet: nat -> Moment, k: nat,
                                               locked: set<nat>, now: Time, lease: nat)
    requires start <= |ids|
    requires forall c: nat :: quiet(c).locked == locked && quiet(c).now == now
    requires forall c: nat, r: Rows :: quiet(c).others(r) == r
    ensures var all := ChunkedClaim(rows, ids, start, quiet, k, lease);
            && all.0 == Claim(rows, ids[start..], locked, now, lease)
            && all.1 == Claimed(rows, ids[start..], locked, now)
    decreases |ids| - start
  {
    if start < |ids| {
      var end := Min(start + CLAIM_CHUNK, |ids|);
      ClaimSplits(rows, ids[start..end], ids[end..], locked, now, lease);
      assert ids[start..end] + ids[end..] == ids[start..];
      ChunksRefineOneClaim(Claim(rows, ids[start..end], locked, now, lease), ids, end, quiet, k + 1, locked, now, lease);
    }
  }

  ghost predicate Distinct(ids: seq<nat>) {
    forall i, j :: 0 <= i < j < |ids| ==> ids[i] != ids[j]
  }

  /** Every id of `claimed` is among the first `end` requested, and appears once. */
  ghost predicate OnceEach(claimed: seq<nat>, ids: seq<nat>, end: nat)
    requires end <= |ids|
  {
    forall id :: multiset(claimed)[id] <= 1 && (id in claimed ==> id in ids[..end])
  }

  lemma ChunkOnce(claimed: seq<nat>, taken: seq<nat>, chosen: set<nat>, ids: seq<nat>, start: nat, end: nat)
    requires start <= end <= |ids| && Distinct(ids)
    requires OnceEach(claimed, ids, start)
    requires multiset(taken) == multiset(chosen) && forall id :: id in chosen ==> id in ids[start..end]
    ensures OnceEach(claimed + taken, ids, end)
  {
    forall id | id in claimed + taken
      ensures multiset(claimed + taken)[id] <= 1 && id in ids[..end]
    {
      assert id in multiset(claimed) || id in multiset(taken);
      assert ids[..end] == ids[..start] + ids[start..end];
    }
  }

  class Monitors {
    var rows: Rows

    /**
     * One claim statement. What it returns is, once each, the requested monitors that were due and not
     * locked elsewhere; those and only those are leased, and stay off the due list until the lease ends.
     */
    method ClaimStatement(ids: seq<nat>, at: Moment, lease: nat) returns (claimed: seq<nat>)
      modifies this
      ensures rows == Claim(at.others(old(rows)), ids, at.locked, at.now, lease)
      ensures multiset(claimed) == multiset(Claimed(at.others(old(rows)), ids, at.locked, at.now))
      ensures var found := at.others(old(rows));
              && (forall id :: id in claimed <==> id in ids && id in found && id !in at.locked && Due(found[id], at.now))
              && (forall id :: id in claimed ==>
                    id in rows && forall t :: at.now <= t ==> (Due(rows[id], t) <==> at.now + lease <= t))
              && (forall id :: id in found && id !in claimed ==> id in rows && rows[id] == found[id])
    {
      rows := at.others(rows);
      var taken := Claimed(rows, ids, at.locked, at.now);
      rows := Leased(rows, taken, at.now + lease);
      claimed := Listed(taken);
      assert forall id :: id in claimed <==> id in multiset(claimed);
    }

    /**
     * `claimMonitorsForDispatch`: long lists go through in chunks, and whatever others do between
     * them, each of the distinct ids requested comes back at most once.
     */
    method ClaimMonitorsForDispatch(ids: seq<nat>, at: nat -> Moment, lease: nat) returns (claimed: seq<nat>)
      modifies this
      ensures Distinct(ids) ==> OnceEach(claimed, ids, |ids|)
      ensures rows == ChunkedClaim(old(rows), ids, 0, at, 0, lease).0
      ensures forall id :: id in claimed <==> id in ChunkedClaim(old(rows), ids, 0, at, 0, lease).1
    {
      claimed := [];
      var start, chunk := 0, 0;
      while start < |ids|
        invariant start <= |ids|
        invariant Distinct(ids) ==> OnceEach(claimed, ids, start)
        invariant ChunkedClaim(rows, ids, start, at, chunk, lease).0 == ChunkedClaim(old(rows), ids, 0, at, 0, lease).0
        invariant forall id :: id in claimed || id in ChunkedClaim(rows, ids, start, at, chunk, lease).1 <==>
                    id in ChunkedClaim(old(rows), ids, 0, at, 0, lease).1
      {
        var end := Min(start + CLAIM_CHUNK, |ids|);
        ghost var chosen := Claimed(at(chunk).others(rows), ids[start..end], at(chunk).locked, at(chunk).now);
        var taken := ClaimStatement(ids[start..end], at(chunk), lease);
        if Distinct(ids) { ChunkOnce(claimed, taken, chosen, ids, start, end); }
        assert forall id :: id in taken <==> id in multiset(taken);
        claimed := claimed + taken;
        start, chunk := end, chunk + 1;
      }
    }

    /** `reserveMonitorForFollowUp`: taken, nobody else gets the monitor before the lease ends; refused, nothing moves. */
    method ReserveMonitorForFollowUp(id: nat, now: Time, lease: nat) returns (reserved: bool)
      modifies this
      ensures reserved <==> id in old(rows) && !old(rows)[id].paused && Free(old(rows)[id], now)
      ensures reserved ==> id in rows && forall t :: Free(rows[id], t) <==> now + lease <= t
      ensures forall other :: other in old(rows) && (other != id || !reserved) ==>
                other in rows && rows[other] == old(rows)[other]
      ensures reserved == Reservable(old(rows), id, now) && rows == Reserve(old(rows), id, now, lease)
    {
      reserved := id in rows && !rows[id].paused && (rows[id].claimedUntil.None? || rows[id].claimedUntil.value <= now);
      if reserved {
        rows := rows[id := rows[id].(claimedUntil := Some(now + lease))];
      }
    }
  }

  /** The returned rows, in some order. */
  method Listed(taken: set<nat>) returns (ids: seq<nat>)
    ensures multiset(ids) == multiset(taken)
  {
    ids := [];
    var left := taken;
    while left != {}
      invariant left <= taken && multiset(ids) == multiset(taken - left)
      decreases left
    {
      var id :| id in left;
      assert taken - (left - {id}) == taken - left + {id};
      ids, left := ids + [id], left - {id};
    }
    assert taken - left == taken;
  }
}
