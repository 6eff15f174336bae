/**
 * The all-clear for the people who were paged: every intent reaches the channels, but only some of
 * them carry the responders' mail, and the one that ends an incident must if the one that opened it did.
 */
module Responders {
  import opened Prelude
  import opened StatusController
  import opened Incidents
  import opened IncidentLaws
  import opened IncidentTransactions
  import opened Protocol
  import opened LateClaim
  import opened ProtocolTheorems

  /** The intent is there, with the responders' mail. */
  predicate Mails(db: Db, cause: Cause) {
    cause in db.intents && db.intents[cause].responders
  }

  /** A worker's page mailed the responders when it opened, and it is closed. */
  predicate MailedAndClosed(db: Db, i: Id) {
    i in db.incidents && AnnouncedAndClosed(db.incidents[i]) && Mails(db, OpenedCause(i))
  }

  /** Whoever was mailed at the start is mailed at the end. */
  ghost predicate RespondersClear(db: Db) {
    forall i :: MailedAndClosed(db, i) ==> Mails(db, ResolvedCause(i))
  }

  /** Whether the claim leaves the mail to somebody else. */
  predicate Elsewhere(a: Action) {
    (a.Resume? && a.answer.pagedElsewhere) || (a.ReleaseHold? && a.pagedElsewhere)
  }

  /** A claim that mails the responders about an incident already closed, whoever closed it. */
  ghost predicate LatePage(w: World, a: Action) {
    var target := ClaimTarget(w, a);
    && target.Some? && target.value in w.db.incidents
    && w.db.incidents[target.value].notifiedAt.None? && w.db.incidents[target.value].status == Resolved
    && !Elsewhere(a)
  }

  /** What a claim of an unannounced incident commits. */
  lemma ClaimMails(w: World, a: Action, i: Id)
    requires Inv(w) && ClaimTarget(w, a) == Some(i) && i in w.db.incidents && w.db.incidents[i].notifiedAt.None?
    ensures var after := Next(w, a).db;
            && after.intents == w.db.intents[OpenedCause(i) := Intent(!Elsewhere(a))]
            && after.incidents == w.db.incidents[i := w.db.incidents[i].(notifiedAt := Some(w.clock))]
  {
    if a.Resume? {
      assert TaskOk(w.db, TaskOf(w, a.t));
      ClaimKeeps(w.db, i, w.clock, a.answer.pagedElsewhere);
    } else {
      ClaimKeeps(w.db, i, w.clock, a.pagedElsewhere);
    }
  }

  /** An automatic incident is announced by its claim, and by nothing else. */
  lemma OpenedByClaim(w: World, a: Action, i: Id)
    requires Inv(w) && i in w.db.incidents && w.db.incidents[i].source.Automatic?
    requires OpenedCause(i) in Next(w, a).db.intents && OpenedCause(i) !in w.db.intents
    ensures ClaimTarget(w, a) == Some(i) && w.db.incidents[i].notifiedAt.None?
  {
    NextKeeps(w, a);
    var after := Next(w, a).db;
    assert IncidentEvolves(w.db, after, i);
    assert OpenedCause(i) in after.intents <==> IsOpenedFor(after, i);
    assert OpenedCause(i) in w.db.intents <==> IsOpenedFor(w.db, i);
    OnlyClaimNotifies(w, a, i);
  }

  /** The row a claim is about to announce is a worker's, and no all-clear for it carries the mail. */
  lemma TargetIsQuiet(w: World, a: Action, i: Id)
    requires Inv(w) && ClaimTarget(w, a) == Some(i) && i in w.db.incidents && w.db.incidents[i].notifiedAt.None?
    ensures w.db.incidents[i].source.Automatic? && !Mails(w.db, ResolvedCause(i))
  {
    assert a.Resume? ==> TaskOk(w.db, TaskOf(w, a.t));
  }

  /** A late page mails the responders of an incident whose end is announced without them, or not at all. */
  lemma LatePageBreaks(w: World, a: Action)
    requires Inv(w) && LatePage(w, a)
    ensures !RespondersClear(Next(w, a).db)
  {
    var i := ClaimTarget(w, a).value;
    ClaimMails(w, a, i);
    TargetIsQuiet(w, a, i);
    assert MailedAndClosed(Next(w, a).db, i) && !Mails(Next(w, a).db, ResolvedCause(i));
  }

  /** Of an incident mailed at its start, the end is mailed by the step that brings both about. */
  lemma MailedEnd(w: World, a: Action, i: Id)
    requires Inv(w) && RespondersClear(w.db) && !LatePage(w, a) && MailedAndClosed(Next(w, a).db, i)
    ensures Mails(Next(w, a).db, ResolvedCause(i))
  {
    NextKeeps(w, a);
    var after := Next(w, a).db;
    assert i in w.db.incidents;
    assert IncidentEvolves(w.db, after, i);
    if OpenedCause(i) !in w.db.intents {
      OpenedByClaim(w, a, i);
      ClaimMails(w, a, i);
    } else if w.db.incidents[i].status == Resolved {
      assert OpenedCause(i) in w.db.intents <==> IsOpenedFor(w.db, i);
      assert MailedAndClosed(w.db, i);
    }
  }

  /** A step keeps the responders' all-clear exactly when it is not a late page. */
  lemma RespondersStep(w: World, a: Action)
    requires Inv(w) && RespondersClear(w.db)
    ensures RespondersClear(Next(w, a).db) <==> !LatePage(w, a)
  {
    if LatePage(w, a) {
      LatePageBreaks(w, a);
    } else {
      forall i | MailedAndClosed(Next(w, a).db, i) ensures Mails(Next(w, a).db, ResolvedCause(i)) {
        MailedEnd(w, a, i);
      }
    }
  }

  /** Nothing makes up for it: the one all-clear key is taken by an intent without the mail, or the incident is closed for good. */
  lemma UnclearStays(w: World, a: Action)
    requires Inv(w) && !RespondersClear(w.db)
    ensures !RespondersClear(Next(w, a).db)
  {
    NextKeeps(w, a);
    var i :| MailedAndClosed(w.db, i) && !Mails(w.db, ResolvedCause(i));
    assert IncidentEvolves(w.db, Next(w, a).db, i);
    assert MailedAndClosed(Next(w, a).db, i) && !Mails(Next(w, a).db, ResolvedCause(i));
  }

  lemma {:induction false} UnclearForever(w: World, actions: seq<Action>)
    requires Inv(w) && !RespondersClear(w.db)
    ensures !RespondersClear(Run(w, actions).db)
    decreases |actions|
  {
    if actions != [] {
      NextKeeps(w, actions[0]);
      UnclearStays(w, actions[0]);
      UnclearForever(Next(w, actions[0]), actions[1..]);
    }
  }

  ghost predicate NoLatePage(w: World, actions: seq<Action>)
    decreases |actions|
  {
    actions == [] || (!LatePage(w, actions[0]) && NoLatePage(Next(w, actions[0]), actions[1..]))
  }

  /**
   * Over a whole run: every responder mailed at a start is mailed at the end, exactly when no claim mailed
   * anybody about an incident already closed.
   */
  lemma {:induction false} RespondersClearIffNoLatePage(w: World, actions: seq<Action>)
    requires Inv(w) && RespondersClear(w.db)
    ensures RespondersClear(Run(w, actions).db) <==> NoLatePage(w, actions)
    decreases |actions|
  {
    if actions != [] {
      NextKeeps(w, actions[0]);
      RespondersStep(w, actions[0]);
      if LatePage(w, actions[0]) {
        UnclearForever(Next(w, actions[0]), actions[1..]);
      } else {
        RespondersClearIffNoLatePage(Next(w, actions[0]), actions[1..]);
      }
    }
  }

  // ----- a run the channels' all-clear does not see -----

  /** The worker decides to page, and an operator resolves the incident before it does. */
  function Resolves(): seq<Action> { [STEP, StartMove(1, 0, Resolved, 7), Resume(1, ANSWER)] }

  /** The incident closed by hand, announced to the channels, with the worker's claim still to come. */
  function Closed(): World {
    One(FAILED, map[0 := Close(OPEN, 0)], map[0 := [Created, StatusChange(Resolved, Some(7))]],
        map[ResolvedCause(0) := Intent(false)], map[0 := Claiming(0), 1 := Idle], {0})
  }

  lemma OperatorCloses(db: Db)
    requires db == Db(map[0 := FAILED], map[0 := OPEN], map[0 := [Created]], map[])
    ensures ChangeStatus(db, 0, OPEN, Resolved, 7, 0) == Ok(Closed().db)
  {
    var row := Close(OPEN, 0);
    assert Moved(OPEN, Resolved, 0) == row;
    assert StatusIntent(db, 0, row) == (ResolvedCause(0), Intent(false));
    assert Lines(db, 0) + [StatusChange(Resolved, Some(7))] == [Created, StatusChange(Resolved, Some(7))];
    var set' := SetIncident(db, 0, row);
    assert set'.incidents == map[0 := row];
    assert Append(set', 0, StatusChange(Resolved, Some(7))).timeline == Closed().db.timeline;
    assert WriteStatus(db, 0, Resolved, 7, 0).intents == map[ResolvedCause(0) := Intent(false)];
  }

  /** The operator has read the open row. */
  function Reading(): World {
    One(FAILED, map[0 := OPEN], map[0 := [Created]], map[],
        map[0 := Claiming(0), 1 := Moving(0, OPEN, Resolved, 7)], {0})
  }

  lemma ReadReached()
    ensures Next(Next(Made(), Resolves()[0]), Resolves()[1]) == Reading()
  {
    var w1 := Next(Made(), STEP);
    assert w1 == One(FAILED, map[0 := OPEN], map[0 := [Created]], map[], map[0 := Claiming(0)], {0});
    assert Next(w1, Resolves()[1]).tasks == Reading().tasks;
  }

  lemma ClosedReached()
    ensures Run(Made(), Resolves()) == Closed()
  {
    var a := Resolves();
    RunThree(Made(), a[0], a[1], a[2]);
    ReadReached();
    OperatorCloses(Reading().db);
    assert Next(Reading(), a[2]).tasks == Closed().tasks;
  }

  /** The claim that follows is late for the responders, and not for the channels. */
  lemma ClaimMailsLate()
    ensures Next(Closed(), STEP).db.intents == map[ResolvedCause(0) := Intent(false), OpenedCause(0) := Intent(true)]
    ensures MailedAndClosed(Next(Closed(), STEP).db, 0)
    ensures LatePage(Closed(), STEP) && !ProtocolTheorems.LateClaim(Closed(), STEP)
  {
  }

  lemma ClosedIsReachable()
    ensures Run(EMPTY, Opens() + [STEP, STEP, STEP] + Resolves()) == Closed()
  {
    FailingReached();
    MadeReached();
    ClosedReached();
    RunConcat(EMPTY, Opens() + [STEP, STEP, STEP], Resolves());
    RunConcat(EMPTY, Opens(), [STEP, STEP, STEP]);
  }

  lemma ClaimLeavesUnclear(db: Db)
    requires db == Next(Closed(), STEP).db
    ensures AllClear(db) && !RespondersClear(db)
  {
    ClaimMailsLate();
    assert ResolvedCause(0) in db.intents && !Mails(db, ResolvedCause(0));
  }

  /**
   * Opened, resolved by an operator, then claimed: the channels hear of both ends, and the responders are
   * mailed the start only.
   */
  lemma LatePageHappens()
    ensures var db := Run(EMPTY, Opens() + [STEP, STEP, STEP] + Resolves() + [STEP]).db;
            AllClear(db) && !RespondersClear(db)
  {
    ClosedIsReachable();
    RunConcat(EMPTY, Opens() + [STEP, STEP, STEP] + Resolves(), [STEP]);
    RunLast(Closed(), STEP);
    ClaimLeavesUnclear(Next(Closed(), STEP).db);
  }

  lemma RunLast(w: World, a: Action)
    ensures Run(w, [a]) == Next(w, a)
  {
    assert [a][1..] == [];
  }
}
