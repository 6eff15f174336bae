/**
 * Per-actor hash chains: what a fact's hash covers, the verifier's loop, and exactly which
 * sequences of facts the verifier accepts.
 */
module Chain {
  import opened Prelude
  import opened Text
  import opened Canonical
  import opened CanonicalLaws

  datatype Kind = Observation | Decision

  datatype Fact = Fact(actorId: string, seqNo: int, hlc: int, prevHash: Option<string>, kind: Kind,
                       subject: string, specVersion: Option<int>, claim: Json)

  /** A fact as it is stored, beside the hash it was written with. */
  datatype Stored = Stored(fact: Fact, hash: string)

  /** A digest, as hex text; `Injective` is collision freedom. */
  type Digest = string -> string

  ghost predicate Injective(sha: Digest) {
    forall s, t :: sha(s) == sha(t) ==> s == t
  }

  // ----- decimal text -----

  /** `toString()` of an integer. */
  function Decimal(n: int): NumberText {
    if n < 0 then "-" + Digits(-n) else Digits(n)
  }

  lemma DecimalInjective(m: int, n: int)
    requires Decimal(m) == Decimal(n)
    ensures m == n
  {
    assert m < 0 <==> Decimal(m)[0] == '-';
    assert n < 0 <==> Decimal(n)[0] == '-';
    if m < 0 {
      CancelFirst('-', Digits(-m), Digits(-n));
      DigitsInjective(-m, -n);
    } else {
      DigitsInjective(m, n);
    }
  }

  // ----- what is hashed -----

  function KindText(kind: Kind): string {
    match kind
    case Observation => "observation"
    case Decision => "decision"
  }

  function Entries(f: Fact): seq<(string, Json)> {
    [("actorId", Text(f.actorId)),
     ("seq", Text(Decimal(f.seqNo))),
     ("hlc", Text(Decimal(f.hlc))),
     ("prevHash", if f.prevHash.None? then Null else Text(f.prevHash.value)),
     ("kind", Text(KindText(f.kind))),
     ("subject", Text(f.subject)),
     ("specVersion", if f.specVersion.None? then Null else Number(Decimal(f.specVersion.value))),
     ("claim", f.claim)]
  }

  function FactHash(sha: Digest, f: Fact): string {
    sha(Canonicalize(Object(Entries(f))))
  }

  /** Same content: every field equal, and claims that mean the same. */
  predicate SameFact(f: Fact, g: Fact) {
    && f.(claim := Null) == g.(claim := Null)
    && Meaning(f.claim) == Meaning(g.claim)
    && (f.claim == Undefined <==> g.claim == Undefined)
  }

  lemma EntriesDistinct(f: Fact)
    ensures DistinctKeys(Entries(f))
  {
    var e := Entries(f);
    assert |e[0].0| == 7 && |e[1].0| == 3 && |e[2].0| == 3 && |e[3].0| == 8;
    assert |e[4].0| == 4 && |e[5].0| == 7 && |e[6].0| == 11 && |e[7].0| == 5;
    assert e[0].0[0] == 'a' && e[5].0[0] == 's' && e[1].0[0] == 's' && e[2].0[0] == 'h';
  }

  /** Objects whose entries correspond mean the same. */
  lemma {:induction false} PointwiseMeaning(v: Json, w: Json, s: seq<(string, Json)>, t: seq<(string, Json)>)
    requires (forall p :: p in s ==> p.1 < v) && (forall p :: p in t ==> p.1 < w) && |s| == |t|
    requires forall i :: 0 <= i < |s| ==>
               && s[i].0 == t[i].0 && Meaning(s[i].1) == Meaning(t[i].1)
               && (s[i].1 == Undefined <==> t[i].1 == Undefined)
    ensures EntriesMeaning(v, s) == EntriesMeaning(w, t)
    decreases |s|
  {
    if s != [] { PointwiseMeaning(v, w, s[1..], t[1..]); }
  }

  /** Equal maps give equal values at one key. */
  lemma SameAt(v: Json, w: Json, s: seq<(string, Json)>, t: seq<(string, Json)>, i: nat)
    requires (forall p :: p in s ==> p.1 < v) && (forall p :: p in t ==> p.1 < w)
    requires DistinctKeys(s) && DistinctKeys(t) && EntriesMeaning(v, s) == EntriesMeaning(w, t)
    requires i < |s| && i < |t| && s[i].0 == t[i].0 && s[i].1 != Undefined
    ensures t[i].1 != Undefined && Meaning(s[i].1) == Meaning(t[i].1)
  {
    EntriesMeaningHas(v, s, i);
    var j := EntriesMeaningOnly(w, t, s[i].0);
    assert t[j].0 == t[i].0;
    assert j == i;
    EntriesMeaningHas(w, t, i);
  }

  lemma SameKeys(f: Fact, g: Fact, i: nat)
    requires i < 8
    ensures |Entries(f)| == 8 == |Entries(g)| && Entries(f)[i].0 == Entries(g)[i].0
  {
  }

  /** One field's entries, as the corresponding entry of two facts. */
  lemma SameField(f: Fact, g: Fact, i: nat)
    requires Meaning(Object(Entries(f))) == Meaning(Object(Entries(g))) && i < 8 && Entries(f)[i].1 != Undefined
    ensures Entries(g)[i].1 != Undefined && Meaning(Entries(f)[i].1) == Meaning(Entries(g)[i].1)
  {
    EntriesDistinct(f);
    EntriesDistinct(g);
    SameKeys(f, g, i);
    SameAt(Object(Entries(f)), Object(Entries(g)), Entries(f), Entries(g), i);
  }

  lemma SameLabels(f: Fact, g: Fact)
    requires Meaning(Object(Entries(f))) == Meaning(Object(Entries(g)))
    ensures f.actorId == g.actorId && f.prevHash == g.prevHash && f.subject == g.subject && f.kind == g.kind
  {
    SameField(f, g, 0);
    SameField(f, g, 3);
    SameField(f, g, 4);
    SameField(f, g, 5);
    assert KindText(Observation)[0] == 'o' && KindText(Decision)[0] == 'd';
  }

  lemma SameNumbers(f: Fact, g: Fact)
    requires Meaning(Object(Entries(f))) == Meaning(Object(Entries(g)))
    ensures f.seqNo == g.seqNo && f.hlc == g.hlc && f.specVersion == g.specVersion
  {
    SameField(f, g, 1);
    SameField(f, g, 2);
    SameField(f, g, 6);
    DecimalInjective(f.seqNo, g.seqNo);
    DecimalInjective(f.hlc, g.hlc);
    if f.specVersion.Some? && g.specVersion.Some? { DecimalInjective(f.specVersion.value, g.specVersion.value); }
  }

  lemma SameClaims(f: Fact, g: Fact)
    requires Meaning(Object(Entries(f))) == Meaning(Object(Entries(g)))
    ensures Meaning(f.claim) == Meaning(g.claim) && (f.claim == Undefined <==> g.claim == Undefined)
  {
    if f.claim != Undefined { SameField(f, g, 7); }
    if g.claim != Undefined { SameField(g, f, 7); }
  }

  lemma SameFactSameField(f: Fact, g: Fact, i: nat)
    requires SameFact(f, g) && i < 8
    ensures |Entries(f)| == 8 == |Entries(g)|
    ensures Entries(f)[i].0 == Entries(g)[i].0 && Meaning(Entries(f)[i].1) == Meaning(Entries(g)[i].1)
    ensures Entries(f)[i].1 == Undefined <==> Entries(g)[i].1 == Undefined
  {
    assert f.(claim := Null).seqNo == g.(claim := Null).seqNo;
  }

  lemma SameFactSameMeaning(f: Fact, g: Fact)
    requires SameFact(f, g)
    ensures Meaning(Object(Entries(f))) == Meaning(Object(Entries(g)))
  {
    SameKeys(f, g, 0);
    forall i | 0 <= i < 8
      ensures Entries(f)[i].0 == Entries(g)[i].0 && Meaning(Entries(f)[i].1) == Meaning(Entries(g)[i].1)
      ensures Entries(f)[i].1 == Undefined <==> Entries(g)[i].1 == Undefined
    {
      SameFactSameField(f, g, i);
    }
    PointwiseMeaning(Object(Entries(f)), Object(Entries(g)), Entries(f), Entries(g));
  }

  lemma ContentValid(f: Fact)
    requires Valid(f.claim)
    ensures Valid(Object(Entries(f)))
  {
    EntriesDistinct(f);
  }

  lemma CanonicalIdentifies(f: Fact, g: Fact)
    requires Valid(f.claim) && Valid(g.claim)
    ensures Canonicalize(Object(Entries(f))) == Canonicalize(Object(Entries(g))) <==> SameFact(f, g)
  {
    ContentValid(f);
    ContentValid(g);
    CanonicalIffSameMeaning(Object(Entries(f)), Object(Entries(g)));
    if SameFact(f, g) {
      SameFactSameMeaning(f, g);
    }
    if Meaning(Object(Entries(f))) == Meaning(Object(Entries(g))) {
      SameLabels(f, g);
      SameNumbers(f, g);
      SameClaims(f, g);
    }
  }

  /** Under a collision-free digest a fact's hash identifies its content, and nothing but its content. */
  lemma HashIdentifiesFact(sha: Digest, f: Fact, g: Fact)
    requires Injective(sha) && Valid(f.claim) && Valid(g.claim)
    ensures FactHash(sha, f) == FactHash(sha, g) <==> SameFact(f, g)
  {
    CanonicalIdentifies(f, g);
  }

  // ----- the verifier -----

  /** `factHash` under the digest in use. */
  type Hasher = Fact -> string

  /** The hash of a fact identifies its content. */
  ghost predicate Identifies(hashOf: Hasher) {
    forall f: Fact, g: Fact :: Valid(f.claim) && Valid(g.claim) ==> (hashOf(f) == hashOf(g) <==> SameFact(f, g))
  }

  lemma FactHashIdentifies(sha: Digest)
    requires Injective(sha)
    ensures Identifies(f => FactHash(sha, f))
  {
    forall f: Fact, g: Fact | Valid(f.claim) && Valid(g.claim) ensures FactHash(sha, f) == FactHash(sha, g) <==> SameFact(f, g) {
      HashIdentifiesFact(sha, f, g);
    }
  }

  datatype Reason = PrevHash | Sequence | Clock | Content

  datatype ChainVerdict = Holds | Broken(index: nat, reason: Reason)

  /** What is wrong with the link at `k`, in the order the verifier asks. */
  function LinkError(hashOf: Hasher, facts: seq<Stored>, k: nat): Option<Reason>
    requires k < |facts|
  {
    var fact := facts[k].fact;
    if k > 0 && fact.prevHash != Some(facts[k - 1].hash) then Some(PrevHash)
    else if k > 0 && fact.seqNo != facts[k - 1].fact.seqNo + 1 then Some(Sequence)
    else if k > 0 && fact.hlc <= facts[k - 1].fact.hlc then Some(Clock)
    else if hashOf(fact) != facts[k].hash then Some(Content)
    else None
  }

  ghost predicate Accepted(hashOf: Hasher, facts: seq<Stored>) {
    forall k :: 0 <= k < |facts| ==> LinkError(hashOf, facts, k).None?
  }

  ghost predicate FirstBad(hashOf: Hasher, facts: seq<Stored>, k: int) {
    0 <= k < |facts| && LinkError(hashOf, facts, k).Some? && forall j :: 0 <= j < k ==> LinkError(hashOf, facts, j).None?
  }

  /** Recomputes the chain and reports the first link that does not hold. */
  method VerifyChain(hashOf: Hasher, facts: seq<Stored>) returns (r: ChainVerdict)
    ensures r.Holds? <==> Accepted(hashOf, facts)
    ensures r.Broken? ==> FirstBad(hashOf, facts, r.index) && LinkError(hashOf, facts, r.index) == Some(r.reason)
  {
    var expectedPrev: Option<string> := None;
    var expectedSeq: Option<int> := None;
    var previousHlc: Option<int> := None;
    for index := 0 to |facts|
      invariant forall j :: 0 <= j < index ==> LinkError(hashOf, facts, j).None?
      invariant expectedPrev == (if index == 0 then None else Some(facts[index - 1].hash))
      invariant expectedSeq == (if index == 0 then None else Some(facts[index - 1].fact.seqNo + 1))
      invariant previousHlc == (if index == 0 then None else Some(facts[index - 1].fact.hlc))
    {
      var fact := facts[index].fact;
      if expectedPrev.Some? && fact.prevHash != expectedPrev {
        assert LinkError(hashOf, facts, index) == Some(PrevHash);
        return Broken(index, PrevHash);
      }
      if expectedSeq.Some? && fact.seqNo != expectedSeq.value {
        assert LinkError(hashOf, facts, index) == Some(Sequence);
        return Broken(index, Sequence);
      }
      if previousHlc.Some? && fact.hlc <= previousHlc.value {
        assert LinkError(hashOf, facts, index) == Some(Clock);
        return Broken(index, Clock);
      }
      if hashOf(fact) != facts[index].hash {
        assert LinkError(hashOf, facts, index) == Some(Content);
        return Broken(index, Content);
      }
      expectedPrev := Some(facts[index].hash);
      expectedSeq := Some(fact.seqNo + 1);
      previousHlc := Some(fact.hlc);
    }
    r := Holds;
  }

  // ----- which rearrangements of a chain the verifier accepts -----

  ghost predicate Indices(picks: seq<nat>, n: nat) {
    forall k :: 0 <= k < |picks| ==> picks[k] < n
  }

  function Select(facts: seq<Stored>, picks: seq<nat>): seq<Stored>
    requires Indices(picks, |facts|)
  {
    seq(|picks|, k requires 0 <= k < |picks| => facts[picks[k]])
  }

  /** `picks` walks forward one fact at a time up to, and not including, `k`. */
  ghost predicate ConsecutiveTo(picks: seq<nat>, k: int) {
    forall j :: 1 <= j < k && j < |picks| ==> picks[j] == picks[j - 1] + 1
  }

  lemma {:induction false} SeqNosCount(hashOf: Hasher, facts: seq<Stored>, i: nat)
    requires Accepted(hashOf, facts) && i < |facts|
    ensures facts[i].fact.seqNo == facts[0].fact.seqNo + i
    decreases i
  {
    if i > 0 {
      SeqNosCount(hashOf, facts, i - 1);
      assert LinkError(hashOf, facts, i).None?;
    }
  }

  lemma SelectedLink(hashOf: Hasher, facts: seq<Stored>, picks: seq<nat>, k: nat)
    requires Accepted(hashOf, facts) && Indices(picks, |facts|) && k < |picks|
    ensures LinkError(hashOf, Select(facts, picks), k).None? <==> (k == 0 || picks[k] == picks[k - 1] + 1)
  {
    assert LinkError(hashOf, facts, picks[k]).None?;
    SeqNosCount(hashOf, facts, picks[k]);
    if k > 0 { SeqNosCount(hashOf, facts, picks[k - 1]); }
  }

  /**
   * Facts of one accepted chain, in any order and with any omitted or repeated, are accepted exactly
   * when they are a contiguous slice; otherwise the reported index is the first one out of step.
   */
  lemma AcceptsExactlySlices(hashOf: Hasher, facts: seq<Stored>, picks: seq<nat>)
    requires Accepted(hashOf, facts) && Indices(picks, |facts|)
    ensures Accepted(hashOf, Select(facts, picks)) <==> ConsecutiveTo(picks, |picks|)
    ensures forall k :: FirstBad(hashOf, Select(facts, picks), k) ==>
              0 < k < |picks| && picks[k] != picks[k - 1] + 1 && ConsecutiveTo(picks, k)
  {
    var chosen := Select(facts, picks);
    forall k | 0 <= k < |picks|
      ensures LinkError(hashOf, chosen, k).None? <==> (k == 0 || picks[k] == picks[k - 1] + 1)
    {
      SelectedLink(hashOf, facts, picks, k);
    }
    if Accepted(hashOf, chosen) {
      forall j | 1 <= j < |picks| ensures picks[j] == picks[j - 1] + 1 {
        assert LinkError(hashOf, chosen, j).None?;
      }
    }
    if ConsecutiveTo(picks, |picks|) {
      forall k | 0 <= k < |chosen| ensures LinkError(hashOf, chosen, k).None? {
        assert k == 0 || picks[k] == picks[k - 1] + 1;
      }
    }
    forall k | FirstBad(hashOf, chosen, k)
      ensures 0 < k < |picks| && picks[k] != picks[k - 1] + 1 && ConsecutiveTo(picks, k)
    {
      assert LinkError(hashOf, chosen, k).Some?;
      forall j | 1 <= j < k ensures picks[j] == picks[j - 1] + 1 {
        assert LinkError(hashOf, chosen, j).None?;
      }
    }
  }

  lemma SlicesAccepted(hashOf: Hasher, facts: seq<Stored>, lo: nat, hi: nat)
    requires Accepted(hashOf, facts) && lo <= hi <= |facts|
    ensures Accepted(hashOf, facts[lo..hi])
  {
    var picks := seq(hi - lo, k requires 0 <= k < hi - lo => lo + k);
    AcceptsExactlySlices(hashOf, facts, picks);
    assert Select(facts, picks) == facts[lo..hi];
  }

  /** Removing one interior fact is reported at the fact that followed it. */
  lemma RemovalDetected(hashOf: Hasher, facts: seq<Stored>, k: nat)
    requires Accepted(hashOf, facts) && 0 < k < |facts| - 1
    ensures FirstBad(hashOf, facts[..k] + facts[k + 1..], k)
  {
    var picks := seq(|facts| - 1, j requires 0 <= j < |facts| - 1 => if j < k then j else j + 1);
    assert Select(facts, picks) == facts[..k] + facts[k + 1..];
    forall j | 0 <= j <= k
      ensures LinkError(hashOf, Select(facts, picks), j).None? <==> (j == 0 || picks[j] == picks[j - 1] + 1)
    {
      SelectedLink(hashOf, facts, picks, j);
    }
  }

  /** Where a rewritten fact or its stored hash stops the verifier: at that fact, or at the next one. */
  lemma EditStops(hashOf: Hasher, facts: seq<Stored>, k: nat, forged: Stored)
    requires Accepted(hashOf, facts) && k < |facts| && !Accepted(hashOf, facts[k := forged])
    ensures FirstBad(hashOf, facts[k := forged], k) || FirstBad(hashOf, facts[k := forged], k + 1)
  {
    var edited := facts[k := forged];
    assert forall j :: 0 <= j < k ==> LinkError(hashOf, edited, j) == LinkError(hashOf, facts, j);
    forall j | k + 1 < j < |facts| ensures LinkError(hashOf, edited, j).None? {
      assert LinkError(hashOf, edited, j) == LinkError(hashOf, facts, j);
    }
    assert LinkError(hashOf, edited, k).None? ==> k + 1 < |facts| && LinkError(hashOf, edited, k + 1).Some?;
  }

  /** The forged fact fits where it stands: it follows its predecessor and its stored hash is its own. */
  ghost predicate FitsAt(hashOf: Hasher, facts: seq<Stored>, k: nat, forged: Stored)
    requires k < |facts|
  {
    && hashOf(forged.fact) == forged.hash
    && (k > 0 ==>
          && forged.fact.prevHash == Some(facts[k - 1].hash)
          && forged.fact.seqNo == facts[k - 1].fact.seqNo + 1
          && forged.fact.hlc > facts[k - 1].fact.hlc)
  }

  /**
   * Rewriting one fact, its stored hash or both goes unnoticed exactly when nothing was rewritten, or when
   * it is the last fact and the forged one was rehashed to fit. Otherwise the verifier stops at that fact
   * or at the next one.
   */
  lemma EditAcceptedIff(hashOf: Hasher, facts: seq<Stored>, k: nat, forged: Stored)
    requires Identifies(hashOf) && Accepted(hashOf, facts) && k < |facts|
    requires Valid(facts[k].fact.claim) && Valid(forged.fact.claim)
    ensures Accepted(hashOf, facts[k := forged]) <==>
            || (forged.hash == facts[k].hash && SameFact(forged.fact, facts[k].fact))
            || (k + 1 == |facts| && FitsAt(hashOf, facts, k, forged))
    ensures !Accepted(hashOf, facts[k := forged]) ==>
              FirstBad(hashOf, facts[k := forged], k) || FirstBad(hashOf, facts[k := forged], k + 1)
  {
    var edited := facts[k := forged];
    assert forall j :: 0 <= j < k ==> LinkError(hashOf, edited, j) == LinkError(hashOf, facts, j);
    assert LinkError(hashOf, facts, k).None?;
    if Accepted(hashOf, edited) {
      assert LinkError(hashOf, edited, k).None?;
      if k + 1 < |facts| {
        assert LinkError(hashOf, edited, k + 1).None? && LinkError(hashOf, facts, k + 1).None?;
      }
    } else {
      EditStops(hashOf, facts, k, forged);
    }
    if forged.hash == facts[k].hash && SameFact(forged.fact, facts[k].fact) {
      SameEditAccepted(hashOf, facts, k, forged);
    }
  }

  /** A fact that says the same under the same hash links as the one it replaces. */
  lemma SameEditAccepted(hashOf: Hasher, facts: seq<Stored>, k: nat, forged: Stored)
    requires Identifies(hashOf) && Accepted(hashOf, facts) && k < |facts|
    requires Valid(facts[k].fact.claim) && Valid(forged.fact.claim)
    requires forged.hash == facts[k].hash && SameFact(forged.fact, facts[k].fact)
    ensures Accepted(hashOf, facts[k := forged])
  {
    var edited := facts[k := forged];
    forall j | 0 <= j < |facts| ensures LinkError(hashOf, edited, j).None? {
      assert LinkError(hashOf, facts, j).None?;
    }
  }

  /** So it is with the ledger's own hash, under a collision-free digest. */
  lemma LedgerEditAcceptedIff(sha: Digest, facts: seq<Stored>, k: nat, forged: Stored)
    requires Injective(sha) && Accepted(f => FactHash(sha, f), facts) && k < |facts|
    requires Valid(facts[k].fact.claim) && Valid(forged.fact.claim)
    ensures Accepted(f => FactHash(sha, f), facts[k := forged]) <==>
            || (forged.hash == facts[k].hash && SameFact(forged.fact, facts[k].fact))
            || (k + 1 == |facts| && FitsAt(f => FactHash(sha, f), facts, k, forged))
  {
    FactHashIdentifies(sha);
    EditAcceptedIff(f => FactHash(sha, f), facts, k, forged);
  }
}
