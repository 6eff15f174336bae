/**
 * The bounded sliding-window rate limiter, compared with the history it is meant to answer from.
 */
module RateLimit {
  import opened Prelude

  type Key = string

  /**
   * Attempts still remembered, oldest first, and when the newest of them falls out. A key refused
   * without any attempt has NaN for that, written `None`: no comparison with it ever holds.
   */
  datatype Window = Window(hits: seq<Time>, expiresAt: Option<Time>)

  type Windows = map<Key, Window>

  datatype Policy = Policy(limit: nat, windowMs: nat)

  const TARGET: nat := 10_000
  const HARD_CAP: nat := 20_000
  const SWEEP_EVERY: nat := 1_000

  /** `hits.filter((ts) => ts > cutoff)`. */
  function After(hits: seq<Time>, cutoff: Time): seq<Time> {
    if hits == [] then []
    else (if hits[0] > cutoff then [hits[0]] else []) + After(hits[1..], cutoff)
  }

  function HitsOf(windows: Windows, key: Key): seq<Time> {
    if key in windows then windows[key].hits else []
  }

  // ----- what one call may do -----

  /** `hits[hits.length - 1] + windowMs`. */
  function Expiry(hits: seq<Time>, windowMs: nat): Option<Time> {
    if hits == [] then None else Some(hits[|hits| - 1] + windowMs)
  }

  /** `entry.expiresAt <= now`. */
  predicate Expired(w: Window, now: Time) {
    w.expiresAt.Some? && w.expiresAt.value <= now
  }

  function Unexpired(windows: Windows, now: Time): Windows {
    map k | k in windows && !Expired(windows[k], now) :: windows[k]
  }

  predicate AllTimed(windows: Windows) {
    forall k :: k in windows ==> windows[k].expiresAt.Some?
  }

  /** What an eviction spares expires no sooner than what it drops. */
  ghost predicate SparesLatest(windows: Windows, kept: Windows) {
    forall k, gone :: k in kept && gone in windows && gone !in kept ==>
      k in windows && windows[gone].expiresAt.Some? && windows[k].expiresAt.Some?
      && windows[gone].expiresAt.value <= windows[k].expiresAt.value
  }

  /**
   * A sweep keeps the unexpired entries or, in a flood, the `TARGET` of them that expire last. A
   * comparison with NaN leaves the order of the sort open, and with it which ones those are.
   */
  ghost predicate Sweeps(before: Windows, now: Time, after: Windows) {
    var live := Unexpired(before, now);
    if |live| <= HARD_CAP then after == live
    else
      && |after| == TARGET
      && (forall k :: k in after ==> k in live && after[k] == live[k])
      && (AllTimed(live) ==> SparesLatest(live, after))
  }

  /** One call of `checkRateLimit`: the answer, and the map and counter it leaves. */
  ghost predicate Calls(before: Windows, since: nat, key: Key, policy: Policy, now: Time,
                        allowed: bool, after: Windows, sinceAfter: nat)
  {
    var recent := After(HitsOf(before, key), now - policy.windowMs);
    && allowed == (|recent| < policy.limit)
    && (if !allowed then
          after == before[key := Window(recent, Expiry(recent, policy.windowMs))] && sinceAfter == since
        else
          var noted := before[key := Window(recent + [now], Some(now + policy.windowMs))];
          if |noted| > HARD_CAP || since + 1 >= SWEEP_EVERY then Sweeps(noted, now, after) && sinceAfter == 0
          else after == noted && sinceAfter == since + 1)
  }

  // ----- the limiter itself -----

  class Limiter {
    var windows: Windows
    var sinceSweep: nat

    constructor ()
      ensures windows == map[] && sinceSweep == 0
    {
      windows, sinceSweep := map[], 0;
    }

    method Sweep(now: Time)
      modifies this
      ensures Sweeps(old(windows), now, windows) && sinceSweep == 0
    {
      sinceSweep := 0;
      var pending := windows.Keys;
      while pending != {}
        invariant pending <= old(windows).Keys && sinceSweep == 0
        invariant windows == map k | k in old(windows) && (k in pending || !Expired(old(windows)[k], now)) ::
                               old(windows)[k]
        decreases pending
      {
        var key :| key in pending;
        pending := pending - {key};
        if Expired(windows[key], now) {
          windows := windows - {key};
        }
      }
      assert windows == Unexpired(old(windows), now);
      if |windows| <= HARD_CAP {
        return;
      }
      Evict();
    }

    /** Drops whatever expires soonest until `TARGET` entries are left. */
    method Evict()
      requires |windows| > HARD_CAP
      modifies this`windows
      ensures |windows| == TARGET
      ensures forall k :: k in windows ==> k in old(windows) && windows[k] == old(windows)[k]
      ensures AllTimed(old(windows)) ==> SparesLatest(old(windows), windows)
    {
      ghost var before := windows;
      var byExpiry := ByExpiry(windows);
      var surplus := |windows| - TARGET;
      Untrimmed(windows, byExpiry);
      for i := 0 to surplus
        invariant windows == Without(before, byExpiry, i) && |windows| == |before| - i
      {
        DropOne(before, byExpiry, i);
        windows := windows - {byExpiry[i]};
      }
      Trimmed(before, byExpiry, surplus);
    }

    /** `checkRateLimit`. */
    method CheckRateLimit(key: Key, policy: Policy, now: Time) returns (allowed: bool)
      modifies this
      ensures Calls(old(windows), old(sinceSweep), key, policy, now, allowed, windows, sinceSweep)
    {
      var cutoff := now - policy.windowMs;
      var hits := After(HitsOf(windows, key), cutoff);
      if |hits| >= policy.limit {
        windows := windows[key := Window(hits, Expiry(hits, policy.windowMs))];
        return false;
      }
      hits := hits + [now];
      windows := windows[key := Window(hits, Some(now + policy.windowMs))];
      sinceSweep := sinceSweep + 1;
      if |windows| > HARD_CAP || sinceSweep >= SWEEP_EVERY {
        Sweep(now);
      }
      return true;
    }
  }

  /** The keys in the order of the sort, which is by expiry when every entry has one. */
  method ByExpiry(windows: Windows) returns (order: seq<Key>)
    ensures |order| == |windows| && Lists(windows, order)
    ensures AllTimed(windows) ==> ByExpiryOrder(windows, order)
  {
    order := [];
    var left, timed := windows.Keys, AllTimed(windows);
    while left != {}
      invariant left <= windows.Keys && |order| + |left| == |windows| && timed == AllTimed(windows)
      invariant forall k :: k in order <==> k in windows && k !in left
      invariant forall i, j :: 0 <= i < j < |order| ==> order[i] != order[j]
      invariant timed ==> Ascending(windows, order)
      invariant timed ==> forall i, k :: 0 <= i < |order| && k in left ==> NoLater(windows, order[i], k)
      decreases left
    {
      var next :| next in left;
      if timed {
        SomeExpiresFirst(windows, left);
        next :| next in left && forall k :: k in left ==> NoLater(windows, next, k);
      }
      order, left := order + [next], left - {next};
    }
  }

  predicate NoLater(windows: Windows, a: Key, b: Key) {
    && a in windows && b in windows && windows[a].expiresAt.Some? && windows[b].expiresAt.Some?
    && windows[a].expiresAt.value <= windows[b].expiresAt.value
  }

  ghost predicate Ascending(windows: Windows, order: seq<Key>) {
    forall i, j :: 0 <= i < j < |order| ==> NoLater(windows, order[i], order[j])
  }

  /** Every key of the map, once. */
  ghost predicate Lists(windows: Windows, order: seq<Key>) {
    && (forall k :: k in order <==> k in windows)
    && (forall i, j :: 0 <= i < j < |order| ==> order[i] != order[j])
  }

  ghost predicate ByExpiryOrder(windows: Windows, order: seq<Key>) {
    Lists(windows, order) && Ascending(windows, order)
  }

  lemma {:induction false} SomeExpiresFirst(windows: Windows, keys: set<Key>)
    requires keys != {} && keys <= windows.Keys && AllTimed(windows)
    ensures exists s :: s in keys && forall k :: k in keys ==> NoLater(windows, s, k)
    decreases keys
  {
    var one :| one in keys;
    var rest := keys - {one};
    if rest != {} {
      SomeExpiresFirst(windows, rest);
      var s :| s in rest && forall k :: k in rest ==> NoLater(windows, s, k);
      var pick := if NoLater(windows, one, s) then one else s;
      forall k | k in keys ensures NoLater(windows, pick, k) {
        assert k == one || k in rest;
      }
      assert pick in keys;
    } else {
      assert keys == {one};
    }
  }

  /** The entries left when the first `n` of `order` are dropped. */
  function Without(windows: Windows, order: seq<Key>, n: nat): Windows
    requires n <= |order|
  {
    map k | k in windows && k !in order[..n] :: windows[k]
  }

  lemma Untrimmed(windows: Windows, order: seq<Key>)
    ensures Without(windows, order, 0) == windows
  {
  }

  lemma Trimmed(windows: Windows, order: seq<Key>, n: nat)
    requires Lists(windows, order) && n <= |order| && (AllTimed(windows) ==> ByExpiryOrder(windows, order))
    ensures forall k :: k in Without(windows, order, n) ==> k in windows && Without(windows, order, n)[k] == windows[k]
    ensures AllTimed(windows) ==> SparesLatest(windows, Without(windows, order, n))
  {
    if AllTimed(windows) {
      RestExpireLater(windows, order, n);
    }
  }

  lemma DropOne(windows: Windows, order: seq<Key>, n: nat)
    requires Lists(windows, order) && n < |order|
    ensures order[n] in Without(windows, order, n)
    ensures Without(windows, order, n + 1) == Without(windows, order, n) - {order[n]}
    ensures |Without(windows, order, n + 1)| == |Without(windows, order, n)| - 1
  {
    var before := Without(windows, order, n);
    assert order[n] in windows && order[n] !in order[..n];
    assert order[..n + 1] == order[..n] + [order[n]];
    assert (before - {order[n]}).Keys == before.Keys - {order[n]};
  }

  lemma RestExpireLater(windows: Windows, order: seq<Key>, n: nat)
    requires ByExpiryOrder(windows, order) && n <= |order|
    ensures SparesLatest(windows, Without(windows, order, n))
  {
    forall kept, gone | kept in Without(windows, order, n) && gone in windows && gone !in Without(windows, order, n)
      ensures NoLater(windows, gone, kept)
    {
      var g :| 0 <= g < n && order[g] == gone;
      assert kept in order;
      var k :| 0 <= k < |order| && order[k] == kept;
      assert n <= k;
    }
  }
}
