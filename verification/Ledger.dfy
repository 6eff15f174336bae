/**
 * The single fact-writing path: one step advances one actor's chain under its row lock.
 *
 * `Stamp` and `Next` say what a step does to the stored rows, `Writer` is the statement-level
 * code, and the theorem is about every interleaving of steps by any number of actors.
 */
module Ledger {
  import opened Prelude
  import opened Canonical
  import opened Chain
  import Hlc

  datatype Actor = Actor(sequence: nat, lastHlc: nat, headHash: Option<string>)

  const NEW_ACTOR := Actor(0, 0, None)

  /** A fact before it is stamped. */
  datatype Input = Input(actorId: string, kind: Kind, subject: string, specVersion: Option<int>, claim: Json)

  datatype Error = UnknownActor

  /** The link a step writes for an actor in this state. */
  function Stamp(hashOf: Hasher, actor: Actor, input: Input, nowMs: int): Stored {
    Hlc.NextIsMax(actor.lastHlc, nowMs);
    var fact := Fact(input.actorId, actor.sequence + 1, Hlc.NextHlc(actor.lastHlc, nowMs).value, actor.headHash,
                     input.kind, input.subject, input.specVersion, input.claim);
    Stored(fact, hashOf(fact))
  }

  function Advanced(stamped: Stored): Actor
    requires stamped.fact.seqNo >= 0 && stamped.fact.hlc >= 0
  {
    Actor(stamped.fact.seqNo, stamped.fact.hlc, Some(stamped.hash))
  }

  // ----- every interleaving -----

  /** The actor rows, and every fact stored so far in commit order. */
  datatype State = State(actors: map<string, Actor>, facts: seq<Stored>)

  datatype Step =
    | EnsureActor(id: string)
    | WriteFact(input: Input, nowMs: int)

  function Next(hashOf: Hasher, s: State, step: Step): State {
    match step
    case EnsureActor(id) => if id in s.actors then s else s.(actors := s.actors[id := NEW_ACTOR])
    case WriteFact(input, nowMs) =>
      if input.actorId !in s.actors then s
      else
        Hlc.NextIsMax(s.actors[input.actorId].lastHlc, nowMs);
        var stamped := Stamp(hashOf, s.actors[input.actorId], input, nowMs);
        State(s.actors[input.actorId := Advanced(stamped)], s.facts + [stamped])
  }

  function Run(hashOf: Hasher, steps: seq<Step>): State {
    if steps == [] then State(map[], [])
    else Next(hashOf, Run(hashOf, steps[..|steps| - 1]), steps[|steps| - 1])
  }

  /** One actor's facts, in the order they were written. */
  function ChainOf(facts: seq<Stored>, id: string): (chain: seq<Stored>)
    ensures forall f :: f in chain <==> f in facts && f.fact.actorId == id
  {
    if facts == [] then []
    else
      var n := |facts| - 1;
      ChainOf(facts[..n], id) + (if facts[n].fact.actorId == id then [facts[n]] else [])
  }

  /** An actor's row is the head of its chain. */
  ghost predicate HeadOf(actor: Actor, chain: seq<Stored>) {
    && actor.sequence == |chain|
    && (chain == [] ==> actor == NEW_ACTOR)
    && (chain != [] ==>
          var last := chain[|chain| - 1];
          last.fact.seqNo == actor.sequence && last.fact.hlc == actor.lastHlc && Some(last.hash) == actor.headHash)
  }

  /** One actor's chain verifies, and its row is the chain's head. */
  ghost predicate InStep(hashOf: Hasher, s: State, id: string) {
    && Accepted(hashOf, ChainOf(s.facts, id))
    && (if id in s.actors then HeadOf(s.actors[id], ChainOf(s.facts, id)) else ChainOf(s.facts, id) == [])
  }

  ghost predicate Inv(hashOf: Hasher, s: State) {
    forall id :: InStep(hashOf, s, id)
  }

  lemma StampExtends(hashOf: Hasher, actor: Actor, chain: seq<Stored>, input: Input, nowMs: int)
    requires Accepted(hashOf, chain) && HeadOf(actor, chain)
    ensures var stamped := Stamp(hashOf, actor, input, nowMs);
            && stamped.fact.seqNo >= 0 && stamped.fact.hlc >= 0
            && Accepted(hashOf, chain + [stamped]) && HeadOf(Advanced(stamped), chain + [stamped])
  {
    Hlc.NextIsMax(actor.lastHlc, nowMs);
    var stamped := Stamp(hashOf, actor, input, nowMs);
    forall k | 0 <= k < |chain| + 1 ensures LinkError(hashOf, chain + [stamped], k).None? {
      if k < |chain| { assert LinkError(hashOf, chain, k).None?; }
    }
  }

  lemma ChainOfAppend(facts: seq<Stored>, f: Stored, id: string)
    ensures ChainOf(facts + [f], id) == if f.fact.actorId == id then ChainOf(facts, id) + [f] else ChainOf(facts, id)
  {
    assert (facts + [f])[..|facts|] == facts;
  }

  lemma WriteKeeps(hashOf: Hasher, s: State, step: Step, id: string)
    requires InStep(hashOf, s, id) && step.WriteFact? && step.input.actorId in s.actors
    ensures InStep(hashOf, Next(hashOf, s, step), id)
  {
    var stamped := Stamp(hashOf, s.actors[step.input.actorId], step.input, step.nowMs);
    ChainOfAppend(s.facts, stamped, id);
    if id == step.input.actorId {
      StampExtends(hashOf, s.actors[id], ChainOf(s.facts, id), step.input, step.nowMs);
    }
  }

  lemma NextKeeps(hashOf: Hasher, s: State, step: Step)
    requires Inv(hashOf, s)
    ensures Inv(hashOf, Next(hashOf, s, step))
  {
    forall id ensures InStep(hashOf, Next(hashOf, s, step), id) {
      assert InStep(hashOf, s, id);
      if step.WriteFact? && step.input.actorId in s.actors {
        WriteKeeps(hashOf, s, step, id);
      }
    }
  }

  lemma {:induction false} RunKeeps(hashOf: Hasher, steps: seq<Step>)
    ensures Inv(hashOf, Run(hashOf, steps))
    decreases |steps|
  {
    if steps != [] {
      RunKeeps(hashOf, steps[..|steps| - 1]);
      NextKeeps(hashOf, Run(hashOf, steps[..|steps| - 1]), steps[|steps| - 1]);
    }
  }

  /** However actors' steps and clocks interleave, each actor's chain verifies, and so does every slice of it. */
  lemma EveryChainVerifies(hashOf: Hasher, steps: seq<Step>, id: string, lo: nat, hi: nat)
    requires lo <= hi <= |ChainOf(Run(hashOf, steps).facts, id)|
    ensures Accepted(hashOf, ChainOf(Run(hashOf, steps).facts, id)[lo..hi])
  {
    RunKeeps(hashOf, steps);
    assert InStep(hashOf, Run(hashOf, steps), id);
    SlicesAccepted(hashOf, ChainOf(Run(hashOf, steps).facts, id), lo, hi);
  }

  /** The k-th fact of an actor carries sequence number k + 1: no number is skipped or issued twice. */
  lemma SequencesAreDense(hashOf: Hasher, steps: seq<Step>, id: string, k: nat)
    requires k < |ChainOf(Run(hashOf, steps).facts, id)|
    ensures ChainOf(Run(hashOf, steps).facts, id)[k].fact.seqNo == k + 1
  {
    RunKeeps(hashOf, steps);
    var s := Run(hashOf, steps);
    var chain := ChainOf(s.facts, id);
    assert InStep(hashOf, s, id);
    SeqNosCount(hashOf, chain, k);
    SeqNosCount(hashOf, chain, |chain| - 1);
  }

  // ----- the statements -----

  /** What one more stamped fact is to the chain it ends: numbered, linked, later, and verified with it. */
  ghost predicate Links(hashOf: Hasher, chain: seq<Stored>, stamped: Stored, input: Input, nowMs: int) {
    var fact := stamped.fact;
    && fact.actorId == input.actorId && fact.claim == input.claim && fact.subject == input.subject
    && fact.kind == input.kind && fact.specVersion == input.specVersion
    && fact.seqNo == |chain| + 1
    && fact.prevHash == (if chain == [] then None else Some(chain[|chain| - 1].hash))
    && fact.hlc >= nowMs * Hlc.COUNTERS && (chain != [] ==> fact.hlc > chain[|chain| - 1].fact.hlc)
    && stamped.hash == hashOf(fact) && Accepted(hashOf, chain + [stamped])
  }

  lemma StampLinks(hashOf: Hasher, actor: Actor, chain: seq<Stored>, input: Input, nowMs: int)
    requires Accepted(hashOf, chain) && HeadOf(actor, chain)
    ensures Links(hashOf, chain, Stamp(hashOf, actor, input, nowMs), input, nowMs)
  {
    StampExtends(hashOf, actor, chain, input, nowMs);
    Hlc.NextIsMax(actor.lastHlc, nowMs);
  }

  /** A written fact ends its own actor's chain and is in no other. */
  lemma ChainsAfter(hashOf: Hasher, s: State, input: Input, nowMs: int)
    requires Inv(hashOf, s) && input.actorId in s.actors
    ensures var stamped := Stamp(hashOf, s.actors[input.actorId], input, nowMs);
            && Next(hashOf, s, WriteFact(input, nowMs)).facts == s.facts + [stamped]
            && ChainOf(s.facts + [stamped], input.actorId) == ChainOf(s.facts, input.actorId) + [stamped]
            && Links(hashOf, ChainOf(s.facts, input.actorId), stamped, input, nowMs)
            && forall id :: id != input.actorId ==> ChainOf(s.facts + [stamped], id) == ChainOf(s.facts, id)
  {
    var stamped := Stamp(hashOf, s.actors[input.actorId], input, nowMs);
    assert InStep(hashOf, s, input.actorId);
    StampLinks(hashOf, s.actors[input.actorId], ChainOf(s.facts, input.actorId), input, nowMs);
    forall id ensures ChainOf(s.facts + [stamped], id)
                      == if id == input.actorId then ChainOf(s.facts, id) + [stamped] else ChainOf(s.facts, id)
    {
      ChainOfAppend(s.facts, stamped, id);
    }
  }

  class Writer {
    const hashOf: Hasher
    var actors: map<string, Actor>
    /** What the callers have stored of the stamps, in commit order. */
    ghost var facts: seq<Stored>

    /** Every actor's chain verifies, and its row is the chain's head. */
    ghost predicate Valid()
      reads this
    {
      Inv(hashOf, State(actors, facts))
    }

    constructor (hashOf: Hasher)
      ensures Valid() && this.hashOf == hashOf && actors == map[] && facts == []
    {
      this.hashOf, actors, facts := hashOf, map[], [];
    }

    /**
     * Two updates of the locked row around the hash. The stamped fact ends its actor's chain, which
     * verifies with it, and no other chain changes; an unknown actor writes nothing.
     */
    method StampFact(input: Input, nowMs: int) returns (r: Result<Stored, Error>)
      requires Valid()
      modifies this
      ensures Valid() && (r.Ok? <==> input.actorId in old(actors))
      ensures r.Err? ==> actors == old(actors) && facts == old(facts)
      ensures r.Ok? ==>
                && facts == old(facts) + [r.value]
                && Links(hashOf, ChainOf(old(facts), input.actorId), r.value, input, nowMs)
                && ChainOf(facts, input.actorId) == ChainOf(old(facts), input.actorId) + [r.value]
                && forall id :: id != input.actorId ==> ChainOf(facts, id) == ChainOf(old(facts), id)
    {
      if input.actorId !in actors {
        return Err(UnknownActor);
      }
      var id := input.actorId;
      NextKeeps(hashOf, State(actors, facts), WriteFact(input, nowMs));
      ChainsAfter(hashOf, State(actors, facts), input, nowMs);
      actors := actors[id := actors[id].(sequence := actors[id].sequence + 1)];
      var advanced := actors[id];
      Hlc.NextIsMax(advanced.lastHlc, nowMs);
      var hlc := Hlc.NextHlc(advanced.lastHlc, nowMs).value;
      var fact := Fact(id, advanced.sequence, hlc, advanced.headHash, input.kind, input.subject,
                       input.specVersion, input.claim);
      var hash := hashOf(fact);
      actors := actors[id := actors[id].(lastHlc := hlc, headHash := Some(hash))];
      r := Ok(Stored(fact, hash));
      facts := facts + [r.value];
      assert actors == Next(hashOf, State(old(actors), old(facts)), WriteFact(input, nowMs)).actors;
    }
  }
}
