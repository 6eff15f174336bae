/**
 * The ranked selection of due monitors: most overdue first within a tenant, and then the
 * best-ranked monitor of every tenant before any tenant's next one.
 */
module Fairness {
  import opened Prelude

  /** A due monitor, as the ranking query sees it. */
  datatype Candidate = Candidate(id: nat, org: nat, nextAt: Option<Time>)

  /** `next_evaluation_at asc nulls first, id`. */
  predicate Before(a: Candidate, b: Candidate) {
    if a.nextAt != b.nextAt then a.nextAt.None? || (b.nextAt.Some? && a.nextAt.value < b.nextAt.value)
    else a.id < b.id
  }

  ghost predicate DistinctIds(cs: seq<Candidate>) {
    forall i, j :: 0 <= i < j < |cs| ==> cs[i].id != cs[j].id
  }

  ghost predicate SameMembers(a: seq<Candidate>, b: seq<Candidate>) {
    forall c :: c in a <==> c in b
  }

  // ----- sorting by a strict order -----

  type Order = (Candidate, Candidate) -> bool

  /** Strict and total on `cs`. */
  ghost predicate Orders(less: Order, cs: seq<Candidate>) {
    && (forall a, b :: a in cs && b in cs && a != b ==> less(a, b) || less(b, a))
    && (forall a, b :: a in cs && b in cs ==> !(less(a, b) && less(b, a)))
    && (forall a, b, c :: a in cs && b in cs && c in cs && less(a, b) && less(b, c) ==> less(a, c))
  }

  ghost predicate Sorted(less: Order, cs: seq<Candidate>) {
    forall i, j :: 0 <= i < j < |cs| ==> less(cs[i], cs[j])
  }

  function Insert(less: Order, c: Candidate, sorted: seq<Candidate>): (r: seq<Candidate>)
    ensures |r| == |sorted| + 1 && forall x :: x in r <==> x == c || x in sorted
  {
    if sorted == [] || less(c, sorted[0]) then [c] + sorted
    else [sorted[0]] + Insert(less, c, sorted[1..])
  }

  /** `order by`. */
  function SortBy(less: Order, cs: seq<Candidate>): (r: seq<Candidate>)
    ensures |r| == |cs| && SameMembers(r, cs)
  {
    if cs == [] then [] else Insert(less, cs[0], SortBy(less, cs[1..]))
  }

  lemma {:induction false} InsertSorts(less: Order, c: Candidate, sorted: seq<Candidate>)
    requires Orders(less, [c] + sorted) && Sorted(less, sorted) && c !in sorted
    ensures Sorted(less, Insert(less, c, sorted))
    decreases |sorted|
  {
    assert forall x :: x in [c] + sorted <==> x == c || x in sorted;
    if sorted != [] {
      var head := sorted[0];
      if less(c, head) {
        forall x | x in sorted ensures less(c, x) {
          if x != head {
            var k :| 0 <= k < |sorted| && sorted[k] == x;
            assert less(head, x);
          }
        }
      } else {
        assert forall x :: x in [c] + sorted[1..] ==> x in [c] + sorted;
        InsertSorts(less, c, sorted[1..]);
        forall x | x in Insert(less, c, sorted[1..]) ensures less(head, x) {
          if x != c {
            var k :| 0 <= k < |sorted[1..]| && sorted[1..][k] == x;
            assert x == sorted[k + 1];
          }
        }
      }
    }
  }

  lemma {:induction false} SortSorts(less: Order, cs: seq<Candidate>)
    requires Orders(less, cs) && DistinctIds(cs)
    ensures Sorted(less, SortBy(less, cs))
    decreases |cs|
  {
    if cs != [] {
      assert forall x :: x in cs[1..] ==> x in cs;
      SortSorts(less, cs[1..]);
      assert forall x :: x in [cs[0]] + SortBy(less, cs[1..]) ==> x in cs;
      InsertSorts(less, cs[0], SortBy(less, cs[1..]));
    }
  }

  /** There is one way to list the same members in a strict order. */
  lemma {:induction false} SortedIsUnique(less: Order, a: seq<Candidate>, b: seq<Candidate>)
    requires Orders(less, a) && Sorted(less, a) && Sorted(less, b) && SameMembers(a, b)
    ensures a == b
    decreases |a|
  {
    assert a != [] ==> a[0] in b;
    assert b != [] ==> b[0] in a;
    if a != [] && b != [] {
      assert a[0] in b && b[0] in a;
      var j :| 0 <= j < |b| && b[j] == a[0];
      var k :| 0 <= k < |a| && a[k] == b[0];
      assert a[0] == b[0];
      TailMembers(less, a, b);
      TailMembers(less, b, a);
      SortedIsUnique(less, a[1..], b[1..]);
    }
  }

  lemma TailMembers(less: Order, a: seq<Candidate>, b: seq<Candidate>)
    requires a != [] && b != [] && a[0] == b[0] && SameMembers(a, b) && Sorted(less, a) && Orders(less, a)
    ensures forall c :: c in a[1..] ==> c in b[1..]
  {
    forall c | c in a[1..] ensures c in b[1..] {
      var k :| 0 <= k < |a[1..]| && a[1..][k] == c;
      assert less(a[0], a[k + 1]);
      assert c in a && c in b && c != b[0];
    }
  }

  // ----- the query -----

  function OfTenant(cs: seq<Candidate>, org: nat): (r: seq<Candidate>)
    ensures forall c :: c in r <==> c in cs && c.org == org
  {
    if cs == [] then []
    else (if cs[0].org == org then [cs[0]] else []) + OfTenant(cs[1..], org)
  }

  /** One partition of the window: a tenant's due monitors, most overdue first. */
  function Queue(due: seq<Candidate>, org: nat): seq<Candidate> {
    SortBy(Before, OfTenant(due, org))
  }

  /** `row_number()` of a candidate within its partition, from zero. */
  function Rank(due: seq<Candidate>, c: Candidate): nat {
    IndexOf(Queue(due, c.org), c)
  }

  function IndexOf(cs: seq<Candidate>, c: Candidate): (k: nat)
    ensures c in cs ==> k < |cs| && cs[k] == c
  {
    if cs == [] || cs[0] == c then 0 else 1 + IndexOf(cs[1..], c)
  }

  /** `order by rank, next_evaluation_at nulls first, id`. */
  predicate Ahead(due: seq<Candidate>, a: Candidate, b: Candidate) {
    if Rank(due, a) != Rank(due, b) then Rank(due, a) < Rank(due, b) else Before(a, b)
  }

  function Ranked(due: seq<Candidate>): seq<Candidate> {
    SortBy((a, b) => Ahead(due, a, b), due)
  }

  function Selected(due: seq<Candidate>, limit: nat): seq<Candidate> {
    Ranked(due)[..Min(limit, |due|)]
  }

  // ----- the orders are strict -----

  lemma BeforeOrders(cs: seq<Candidate>)
    requires DistinctIds(cs)
    ensures Orders(Before, cs)
  {
    forall a, b | a in cs && b in cs && a != b ensures Before(a, b) || Before(b, a) {
      var i :| 0 <= i < |cs| && cs[i] == a;
      var j :| 0 <= j < |cs| && cs[j] == b;
      assert a.id != b.id;
    }
  }

  lemma AheadOrders(due: seq<Candidate>)
    requires DistinctIds(due)
    ensures Orders((a, b) => Ahead(due, a, b), due)
  {
    BeforeOrders(due);
  }

  lemma RankedIsSorted(due: seq<Candidate>)
    requires DistinctIds(due)
    ensures Sorted((a, b) => Ahead(due, a, b), Ranked(due))
  {
    AheadOrders(due);
    SortSorts((a, b) => Ahead(due, a, b), due);
  }

  lemma {:induction false} OfTenantDistinct(cs: seq<Candidate>, org: nat)
    requires DistinctIds(cs)
    ensures DistinctIds(OfTenant(cs, org))
    decreases |cs|
  {
    if cs != [] {
      OfTenantDistinct(cs[1..], org);
      forall c | c in cs[1..] ensures c.id != cs[0].id {
      }
    }
  }

  lemma QueueIsSorted(due: seq<Candidate>, org: nat)
    requires DistinctIds(due)
    ensures Sorted(Before, Queue(due, org)) && Orders(Before, Queue(due, org))
    ensures forall c :: c in Queue(due, org) <==> c in due && c.org == org
  {
    BeforeOrders(due);
    OfTenantDistinct(due, org);
    BeforeOrders(OfTenant(due, org));
    SortSorts(Before, OfTenant(due, org));
  }

  lemma {:induction false} IndexInSorted(cs: seq<Candidate>, k: nat)
    requires Sorted(Before, cs) && Orders(Before, cs) && k < |cs|
    ensures IndexOf(cs, cs[k]) == k
    decreases k
  {
    if k > 0 {
      assert Before(cs[0], cs[k]);
      assert cs[0] in cs && cs[k] in cs;
      assert forall c :: c in cs[1..] ==> c in cs;
      IndexInSorted(cs[1..], k - 1);
    }
  }

  /** Ranks count along the tenant's queue. */
  lemma RankOfQueue(due: seq<Candidate>, org: nat, k: nat)
    requires DistinctIds(due) && k < |Queue(due, org)|
    ensures Queue(due, org)[k] in due && Queue(due, org)[k].org == org && Rank(due, Queue(due, org)[k]) == k
  {
    QueueIsSorted(due, org);
    assert Queue(due, org)[k] in Queue(due, org);
    IndexInSorted(Queue(due, org), k);
  }

  // ----- each tenant's share -----

  lemma {:induction false} FilterKeepsOrder(less: Order, cs: seq<Candidate>, org: nat)
    requires Sorted(less, cs)
    ensures Sorted(less, OfTenant(cs, org))
    decreases |cs|
  {
    if cs != [] {
      FilterKeepsOrder(less, cs[1..], org);
      forall c | c in OfTenant(cs[1..], org) ensures less(cs[0], c) {
        var k :| 0 <= k < |cs[1..]| && cs[1..][k] == c;
        assert c == cs[k + 1];
      }
    }
  }

  lemma {:induction false} FilterOfPrefix(cs: seq<Candidate>, n: nat, org: nat)
    requires n <= |cs|
    ensures OfTenant(cs[..n], org) <= OfTenant(cs, org)
    decreases n
  {
    if n > 0 {
      assert cs[..n][1..] == cs[1..][..n - 1];
      FilterOfPrefix(cs[1..], n - 1, org);
    }
  }

  /** Filtering the ranked order by tenant gives back the tenant's own queue. */
  lemma RankedKeepsQueues(due: seq<Candidate>, org: nat)
    requires DistinctIds(due)
    ensures OfTenant(Ranked(due), org) == Queue(due, org)
  {
    var mine, queue := OfTenant(Ranked(due), org), Queue(due, org);
    RankedIsSorted(due);
    FilterKeepsOrder((a, b) => Ahead(due, a, b), Ranked(due), org);
    QueueIsSorted(due, org);
    forall i, j | 0 <= i < j < |mine| ensures Before(mine[i], mine[j]) {
      assert Ahead(due, mine[i], mine[j]);
      assert mine[i] in mine && mine[j] in mine;
      AheadInTenant(due, mine[i], mine[j]);
    }
    assert SameMembers(queue, mine);
    SortedIsUnique(Before, queue, mine);
  }

  lemma AheadInTenant(due: seq<Candidate>, a: Candidate, b: Candidate)
    requires DistinctIds(due) && a in due && b in due && a.org == b.org && Ahead(due, a, b)
    ensures Before(a, b)
  {
    QueueIsSorted(due, a.org);
    assert a in Queue(due, a.org) && b in Queue(due, a.org);
  }

  lemma ShareIsPrefix(due: seq<Candidate>, limit: nat, org: nat)
    requires DistinctIds(due)
    ensures OfTenant(Selected(due, limit), org) <= Queue(due, org)
  {
    RankedKeepsQueues(due, org);
    FilterOfPrefix(Ranked(due), Min(limit, |due|), org);
  }

  /** The batch is full whenever there is enough due, and each tenant's share is the head of its own queue. */
  lemma SharesArePrefixes(due: seq<Candidate>, limit: nat, org: nat)
    requires DistinctIds(due)
    ensures |Selected(due, limit)| == Min(limit, |due|)
    ensures forall c :: c in Selected(due, limit) ==> c in due
    ensures OfTenant(Selected(due, limit), org) <= Queue(due, org)
  {
    ShareIsPrefix(due, limit, org);
    forall c | c in Selected(due, limit) ensures c in due {
      assert c in Ranked(due);
    }
  }

  lemma AheadIsAsymmetric(due: seq<Candidate>, a: Candidate, b: Candidate)
    ensures !(Ahead(due, a, b) && Ahead(due, b, a))
  {
  }

  lemma PlacesFollowOrder(due: seq<Candidate>, i: nat, j: nat)
    requires DistinctIds(due) && i < |Ranked(due)| && j < |Ranked(due)|
    ensures Ahead(due, Ranked(due)[i], Ranked(due)[j]) ==> i <= j
  {
    RankedIsSorted(due);
    assert j < i ==> Ahead(due, Ranked(due)[j], Ranked(due)[i]);
    AheadIsAsymmetric(due, Ranked(due)[i], Ranked(due)[j]);
  }

  /** Whoever is ahead of a selected monitor is selected. */
  lemma AheadIsSelected(due: seq<Candidate>, limit: nat, a: Candidate, b: Candidate)
    requires DistinctIds(due) && a in due && b in Selected(due, limit) && Ahead(due, a, b)
    ensures a in Selected(due, limit)
  {
    var ranked, n := Ranked(due), Min(limit, |due|);
    RankedIsSorted(due);
    AheadOrders(due);
    assert a in ranked;
    var i :| 0 <= i < |ranked| && ranked[i] == a;
    var j :| 0 <= j < n && ranked[..n][j] == b;
    assert ranked[j] == b && b in due by { assert b in ranked; }
    PlacesFollowOrder(due, i, j);
    assert i < n;
    assert ranked[..n][i] == a;
  }

  /** The last place of a share, as a candidate and its rank. */
  lemma LastPlace(due: seq<Candidate>, limit: nat, b: nat) returns (last: Candidate)
    requires DistinctIds(due) && OfTenant(Selected(due, limit), b) != []
    ensures last in Selected(due, limit) && Rank(due, last) == |OfTenant(Selected(due, limit), b)| - 1
  {
    var theirs := OfTenant(Selected(due, limit), b);
    ShareIsPrefix(due, limit, b);
    last := theirs[|theirs| - 1];
    assert last in theirs;
    RankOfQueue(due, b, |theirs| - 1);
  }

  /** A tenant's j-th due monitor is selected whenever another tenant holds more than j + 1 places. */
  lemma EarlyIsSelected(due: seq<Candidate>, limit: nat, a: nat, b: nat, j: nat)
    requires DistinctIds(due) && j < |Queue(due, a)| && j + 1 < |OfTenant(Selected(due, limit), b)|
    ensures Queue(due, a)[j] in OfTenant(Selected(due, limit), a)
  {
    var last := LastPlace(due, limit, b);
    RankOfQueue(due, a, j);
    AheadIsSelected(due, limit, Queue(due, a)[j], last);
  }

  lemma InPrefix(queue: seq<Candidate>, share: seq<Candidate>, j: nat)
    requires Sorted(Before, queue) && Orders(Before, queue) && share <= queue && j < |queue| && queue[j] in share
    ensures j < |share|
  {
    var i :| 0 <= i < |share| && share[i] == queue[j];
    IndexInSorted(queue, i);
    IndexInSorted(queue, j);
  }

  /** How many places a tenant gets in a batch. */
  function Places(due: seq<Candidate>, limit: nat, org: nat): nat {
    |OfTenant(Selected(due, limit), org)|
  }

  lemma ShareReaches(due: seq<Candidate>, limit: nat, a: nat, b: nat, j: nat)
    requires DistinctIds(due) && j < |OfTenant(due, a)| && j + 1 < Places(due, limit, b)
    ensures j < Places(due, limit, a)
  {
    assert |Queue(due, a)| == |OfTenant(due, a)|;
    EarlyIsSelected(due, limit, a, b, j);
    ShareIsPrefix(due, limit, a);
    QueueIsSorted(due, a);
    InPrefix(Queue(due, a), OfTenant(Selected(due, limit), a), j);
  }

  /**
   * Tenant fairness. However large one tenant's backlog, no tenant with due monitors falls more than
   * one behind it: a's share is at least its whole queue or one less than b's share.
   */
  lemma TenantFairness(due: seq<Candidate>, limit: nat, a: nat, b: nat)
    requires DistinctIds(due)
    ensures Places(due, limit, a) >= Min(|OfTenant(due, a)|, Places(due, limit, b) - 1)
  {
    var reach := Min(|OfTenant(due, a)|, Places(due, limit, b) - 1);
    if reach > 0 {
      ShareReaches(due, limit, a, b, reach - 1);
    }
  }
}
