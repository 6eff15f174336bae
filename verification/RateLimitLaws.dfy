/**
 * What the bounded limiter guarantees over any run: it answers as one that remembers every
 * attempt since the key was last evicted, it never grows past its cap, and it bounds every window.
 */
module RateLimitLaws {
  import opened Prelude
  import opened RateLimit

  // ----- the history of one key -----

  datatype Event = Hit(at: Time) | Evicted(at: Time)

  /** Hits later than `cutoff` since the key was last evicted. */
  function Recent(events: seq<Event>, cutoff: Time): nat {
    if events == [] then 0
    else
      match events[|events| - 1]
      case Evicted(_) => 0
      case Hit(at) => Recent(events[..|events| - 1], cutoff) + (if at > cutoff then 1 else 0)
  }

  type History = Key -> seq<Event>

  function Also(events: seq<Event>, happened: bool, e: Event): seq<Event> {
    if happened then events + [e] else events
  }

  /** The unexpired entries a sweep had to drop. */
  ghost predicate Drops(before: Windows, now: Time, after: Windows, key: Key) {
    key in before && !Expired(before[key], now) && key !in after
  }

  function Noted(before: Windows, key: Key, policy: Policy, now: Time): Windows {
    before[key := Window(After(HitsOf(before, key), now - policy.windowMs) + [now], Some(now + policy.windowMs))]
  }

  ghost function Extended(h: History, before: Windows, key: Key, policy: Policy, now: Time, allowed: bool,
                          after: Windows): History
  {
    if !allowed then h
    else k => Also(Also(h(k), k == key, Hit(now)), Drops(Noted(before, key, policy, now), now, after, k), Evicted(now))
  }

  // ----- one call -----

  function CountAfter(hits: seq<Time>, cutoff: Time): nat { |After(hits, cutoff)| }

  ghost predicate NonDecreasing(hits: seq<Time>) {
    forall i, j :: 0 <= i < j < |hits| ==> hits[i] <= hits[j]
  }

  /** An entry stands for its key's history at every cutoff from now on. */
  ghost predicate Stands(hits: seq<Time>, events: seq<Event>, from: Time) {
    forall cutoff :: cutoff >= from ==> CountAfter(hits, cutoff) == Recent(events, cutoff)
  }

  ghost predicate EntryOk(w: Window, windowMs: nat, clock: Time) {
    && NonDecreasing(w.hits) && (w.hits != [] ==> w.hits[|w.hits| - 1] <= clock)
    && w.expiresAt == Expiry(w.hits, windowMs)
  }

  /** A key's entry, or the lack of one, is in order and stands for the key's history. */
  ghost predicate KeyOk(windows: Windows, k: Key, events: seq<Event>, windowMs: nat, clock: Time) {
    && (k in windows ==> EntryOk(windows[k], windowMs, clock))
    && Stands(HitsOf(windows, k), events, clock - windowMs)
  }

  ghost predicate Inv(windows: Windows, h: History, policy: Key -> Policy, clock: Time) {
    forall k :: KeyAt(windows, h, policy, clock, k)
  }

  ghost predicate KeyAt(windows: Windows, h: History, policy: Key -> Policy, clock: Time, k: Key) {
    KeyOk(windows, k, h(k), policy(k).windowMs, clock)
  }

  lemma {:induction false} AfterAppend(a: seq<Time>, b: seq<Time>, cutoff: Time)
    ensures After(a + b, cutoff) == After(a, cutoff) + After(b, cutoff)
    decreases |a|
  {
    if a == [] {
      assert a + b == b;
    } else {
      assert (a + b)[1..] == a[1..] + b;
      AfterAppend(a[1..], b, cutoff);
    }
  }

  lemma {:induction false} AfterAfter(hits: seq<Time>, early: Time, late: Time)
    requires early <= late
    ensures After(After(hits, early), late) == After(hits, late)
    decreases |hits|
  {
    if hits != [] {
      AfterAfter(hits[1..], early, late);
      var kept := if hits[0] > early then [hits[0]] else [];
      AfterAppend(kept, After(hits[1..], early), late);
      if hits[0] > early {
        assert kept[1..] == [];
      }
    }
  }

  lemma {:induction false} InAfter(hits: seq<Time>, cutoff: Time, t: Time)
    ensures t in After(hits, cutoff) <==> t in hits && t > cutoff
    decreases |hits|
  {
    if hits != [] {
      InAfter(hits[1..], cutoff, t);
    }
  }

  lemma Prepended(t: Time, rest: seq<Time>)
    requires NonDecreasing(rest) && (rest != [] ==> t <= rest[0])
    ensures NonDecreasing([t] + rest)
  {
  }

  lemma {:induction false} AfterIsOrdered(hits: seq<Time>, cutoff: Time)
    requires NonDecreasing(hits)
    ensures NonDecreasing(After(hits, cutoff))
    decreases |hits|
  {
    if hits != [] {
      AfterIsOrdered(hits[1..], cutoff);
      var rest := After(hits[1..], cutoff);
      if rest != [] {
        InAfter(hits[1..], cutoff, rest[0]);
        assert rest[0] in hits[1..];
      }
      Prepended(hits[0], rest);
    }
  }

  lemma {:induction false} NoneAfter(hits: seq<Time>, cutoff: Time)
    requires forall t :: t in hits ==> t <= cutoff
    ensures After(hits, cutoff) == []
    decreases |hits|
  {
    if hits != [] {
      assert hits[0] in hits && forall t :: t in hits[1..] ==> t in hits;
      NoneAfter(hits[1..], cutoff);
    }
  }

  /** Filtering an entry's hits at the call's cutoff loses nothing that a later call could count. */
  lemma FilterStands(hits: seq<Time>, events: seq<Event>, from: Time, cutoff: Time)
    requires Stands(hits, events, from) && from <= cutoff
    ensures |After(hits, cutoff)| == Recent(events, cutoff)
    ensures Stands(After(hits, cutoff), events, cutoff)
  {
    assert CountAfter(hits, cutoff) == Recent(events, cutoff);
    forall later | later >= cutoff ensures CountAfter(After(hits, cutoff), later) == Recent(events, later) {
      AfterAfter(hits, cutoff, later);
      assert CountAfter(hits, later) == Recent(events, later);
    }
  }

  lemma HitStands(hits: seq<Time>, events: seq<Event>, from: Time, now: Time)
    requires Stands(hits, events, from)
    ensures Stands(hits + [now], events + [Hit(now)], from)
  {
    forall later | later >= from ensures CountAfter(hits + [now], later) == Recent(events + [Hit(now)], later) {
      AfterAppend(hits, [now], later);
      assert CountAfter(hits, later) == Recent(events, later);
      assert (events + [Hit(now)])[..|events|] == events;
      assert [now][1..] == [];
    }
  }

  /** Whatever a sweep forgets because it expired could not have been counted again. */
  lemma ExpiredStands(w: Window, events: seq<Event>, windowMs: nat, clock: Time, now: Time)
    requires EntryOk(w, windowMs, clock) && Stands(w.hits, events, now - windowMs) && Expired(w, now)
    ensures Stands([], events, now - windowMs)
  {
    forall later | later >= now - windowMs ensures CountAfter([], later) == Recent(events, later) {
      assert CountAfter(w.hits, later) == Recent(events, later);
      forall t | t in w.hits ensures t <= later {
        var i :| 0 <= i < |w.hits| && w.hits[i] == t;
      }
      NoneAfter(w.hits, later);
    }
  }

  lemma EvictedStands(events: seq<Event>, now: Time, from: Time)
    ensures Stands([], events + [Evicted(now)], from)
  {
    assert forall later :: Recent(events + [Evicted(now)], later) == 0;
  }

  lemma LaterOk(windows: Windows, k: Key, events: seq<Event>, windowMs: nat, clock: Time, now: Time)
    requires KeyOk(windows, k, events, windowMs, clock) && clock <= now
    ensures KeyOk(windows, k, events, windowMs, now)
  {
  }

  /** The hits a call keeps make an entry again, if there are any. */
  lemma KeptEntry(w: Window, windowMs: nat, now: Time)
    requires EntryOk(w, windowMs, now)
    ensures var recent := After(w.hits, now - windowMs); EntryOk(Window(recent, Expiry(recent, windowMs)), windowMs, now)
  {
    var recent := After(w.hits, now - windowMs);
    AfterIsOrdered(w.hits, now - windowMs);
    if recent != [] {
      InAfter(w.hits, now - windowMs, recent[|recent| - 1]);
      var i :| 0 <= i < |w.hits| && w.hits[i] == recent[|recent| - 1];
    }
  }

  lemma PushedEntry(recent: seq<Time>, windowMs: nat, now: Time)
    requires EntryOk(Window(recent, Expiry(recent, windowMs)), windowMs, now)
    ensures EntryOk(Window(recent + [now], Some(now + windowMs)), windowMs, now)
  {
  }

  lemma WrittenKey(windows: Windows, key: Key, w: Window, events: seq<Event>, windowMs: nat, now: Time)
    requires EntryOk(w, windowMs, now) && Stands(w.hits, events, now - windowMs)
    ensures KeyOk(windows[key := w], key, events, windowMs, now)
  {
  }

  /** The hits a call keeps of an entry, or of no entry, make an entry in order. */
  lemma KeptHits(windows: Windows, key: Key, windowMs: nat, now: Time, recent: seq<Time>)
    requires key in windows ==> EntryOk(windows[key], windowMs, now)
    requires recent == After(HitsOf(windows, key), now - windowMs)
    ensures EntryOk(Window(recent, Expiry(recent, windowMs)), windowMs, now)
  {
    if key in windows {
      KeptEntry(windows[key], windowMs, now);
    }
  }

  lemma KeptStands(hits: seq<Time>, recent: seq<Time>, events: seq<Event>, windowMs: nat, now: Time)
    requires Stands(hits, events, now - windowMs) && recent == After(hits, now - windowMs)
    ensures Stands(recent, events, now - windowMs)
  {
    FilterStands(hits, events, now - windowMs, now - windowMs);
  }

  lemma RefusedKey(windows: Windows, key: Key, events: seq<Event>, windowMs: nat, now: Time, recent: seq<Time>)
    requires KeyOk(windows, key, events, windowMs, now)
    requires recent == After(HitsOf(windows, key), now - windowMs)
    ensures KeyOk(windows[key := Window(recent, Expiry(recent, windowMs))], key, events, windowMs, now)
  {
    KeptHits(windows, key, windowMs, now, recent);
    KeptStands(HitsOf(windows, key), recent, events, windowMs, now);
    WrittenKey(windows, key, Window(recent, Expiry(recent, windowMs)), events, windowMs, now);
  }

  /** And the hits an allowed call keeps stand, with its own, for the history with its own. */
  lemma PushedStands(hits: seq<Time>, recent: seq<Time>, events: seq<Event>, windowMs: nat, now: Time)
    requires Stands(hits, events, now - windowMs) && recent == After(hits, now - windowMs)
    ensures Stands(recent + [now], events + [Hit(now)], now - windowMs)
  {
    FilterStands(hits, events, now - windowMs, now - windowMs);
    HitStands(recent, events, now - windowMs, now);
  }

  lemma PushedHits(windows: Windows, key: Key, windowMs: nat, now: Time, recent: seq<Time>)
    requires key in windows ==> EntryOk(windows[key], windowMs, now)
    requires recent == After(HitsOf(windows, key), now - windowMs)
    ensures EntryOk(Window(recent + [now], Some(now + windowMs)), windowMs, now)
  {
    KeptHits(windows, key, windowMs, now, recent);
    PushedEntry(recent, windowMs, now);
  }

  lemma AllowedKey(windows: Windows, key: Key, events: seq<Event>, policy: Policy, now: Time)
    requires KeyOk(windows, key, events, policy.windowMs, now)
    ensures KeyOk(Noted(windows, key, policy, now), key, events + [Hit(now)], policy.windowMs, now)
  {
    var recent := After(HitsOf(windows, key), now - policy.windowMs);
    PushedHits(windows, key, policy.windowMs, now, recent);
    PushedStands(HitsOf(windows, key), recent, events, policy.windowMs, now);
    WrittenKey(windows, key, Window(recent + [now], Some(now + policy.windowMs)), events + [Hit(now)], policy.windowMs, now);
  }

  /** A sweep keeps every entry standing for its history, an evicted key's having been cut off. */
  lemma SweptKey(noted: Windows, events: seq<Event>, windowMs: nat, now: Time, after: Windows, k: Key)
    requires KeyOk(noted, k, events, windowMs, now) && Sweeps(noted, now, after)
    ensures KeyOk(after, k, Also(events, Drops(noted, now, after, k), Evicted(now)), windowMs, now)
  {
    SweepIsSelective(noted, now, after, k);
    if Drops(noted, now, after, k) {
      EvictedStands(events, now, now - windowMs);
    } else {
      if k in noted && k !in after {
        ExpiredStands(noted[k], events, windowMs, now, now);
      }
    }
  }

  lemma SweepIsSelective(noted: Windows, now: Time, after: Windows, k: Key)
    requires Sweeps(noted, now, after)
    ensures (k in after ==> k in noted && after[k] == noted[k])
  {
  }

  lemma PutKeeps(windows: Windows, h: History, policy: Key -> Policy, key: Key, w: Window, now: Time)
    requires Inv(windows, h, policy, now)
    requires KeyOk(windows[key := w], key, h(key), policy(key).windowMs, now)
    ensures Inv(windows[key := w], h, policy, now)
  {
    var after := windows[key := w];
    forall k ensures KeyAt(after, h, policy, now, k) {
      assert KeyAt(windows, h, policy, now, k);
      if k != key {
        OtherKey(windows, key, w, k, h(k), policy(k).windowMs, now);
      }
    }
  }

  lemma OtherKey(windows: Windows, key: Key, w: Window, k: Key, events: seq<Event>, windowMs: nat, now: Time)
    requires KeyOk(windows, k, events, windowMs, now) && k != key
    ensures KeyOk(windows[key := w], k, events, windowMs, now)
  {
  }

  /** A refused call rewrites one entry, and that entry stands for what it stood for before. */
  lemma RefusedKeeps(windows: Windows, h: History, policy: Key -> Policy, since: nat, key: Key, now: Time,
                     after: Windows, sinceAfter: nat)
    requires Inv(windows, h, policy, now)
    requires Calls(windows, since, key, policy(key), now, false, after, sinceAfter)
    ensures Inv(after, h, policy, now)
  {
    var recent := After(HitsOf(windows, key), now - policy(key).windowMs);
    assert KeyAt(windows, h, policy, now, key);
    RefusedKey(windows, key, h(key), policy(key).windowMs, now, recent);
    PutKeeps(windows, h, policy, key, Window(recent, Expiry(recent, policy(key).windowMs)), now);
  }

  /** What an allowed call does to any key: note the hit on its own, then perhaps sweep. */
  lemma AllowedAt(windows: Windows, events: seq<Event>, policy: Policy, mine: Policy, since: nat, key: Key, now: Time,
                  after: Windows, sinceAfter: nat, k: Key)
    requires KeyOk(windows, k, events, mine.windowMs, now) && (k == key ==> mine == policy)
    requires Calls(windows, since, key, policy, now, true, after, sinceAfter)
    ensures KeyOk(after, k, Also(Also(events, k == key, Hit(now)),
                                 Drops(Noted(windows, key, policy, now), now, after, k), Evicted(now)),
                  mine.windowMs, now)
  {
    var noted, noting := Noted(windows, key, policy, now), Also(events, k == key, Hit(now));
    if k == key {
      AllowedKey(windows, key, events, policy, now);
    }
    assert KeyOk(noted, k, noting, mine.windowMs, now);
    if after != noted {
      SweptKey(noted, noting, mine.windowMs, now, after, k);
    }
  }

  lemma AllowedKeeps(windows: Windows, h: History, policy: Key -> Policy, since: nat, key: Key, now: Time,
                     after: Windows, sinceAfter: nat)
    requires Inv(windows, h, policy, now)
    requires Calls(windows, since, key, policy(key), now, true, after, sinceAfter)
    ensures Inv(after, Extended(h, windows, key, policy(key), now, true, after), policy, now)
  {
    forall k ensures KeyAt(after, Extended(h, windows, key, policy(key), now, true, after), policy, now, k) {
      assert KeyAt(windows, h, policy, now, k);
      AllowedAt(windows, h(k), policy(key), policy(k), since, key, now, after, sinceAfter, k);
    }
  }

  /**
   * A call leaves the map within its cap, if it found it so, unless it refuses a new key outright when
   * the map is full: with a limit of zero the refusal writes an entry and no sweep follows.
   */
  lemma CapIsKept(windows: Windows, since: nat, key: Key, policy: Policy, now: Time, allowed: bool,
                  after: Windows, sinceAfter: nat)
    requires Calls(windows, since, key, policy, now, allowed, after, sinceAfter) && |windows| <= HARD_CAP
    ensures |after| <= HARD_CAP <==> !(policy.limit == 0 && key !in windows && |windows| == HARD_CAP)
  {
    if !allowed {
      if key in windows {
        assert after.Keys == windows.Keys;
      } else {
        assert HitsOf(windows, key) == [] && after.Keys == windows.Keys + {key};
      }
    }
  }

  /** The answer is the one the key's own history gives. */
  lemma AnswersFromHistory(windows: Windows, h: History, policy: Key -> Policy, since: nat, key: Key, clock: Time,
                           now: Time, allowed: bool, after: Windows, sinceAfter: nat)
    requires Inv(windows, h, policy, clock) && clock <= now
    requires Calls(windows, since, key, policy(key), now, allowed, after, sinceAfter)
    ensures allowed <==> Recent(h(key), now - policy(key).windowMs) < policy(key).limit
  {
    assert KeyAt(windows, h, policy, clock, key);
    assert CountAfter(HitsOf(windows, key), now - policy(key).windowMs)
        == Recent(h(key), now - policy(key).windowMs);
  }

  // ----- runs -----

  datatype Call = Call(key: Key, now: Time)

  datatype Snapshot = Snapshot(windows: Windows, since: nat)

  ghost predicate CallIs(policy: Key -> Policy, calls: seq<Call>, snaps: seq<Snapshot>, answers: seq<bool>, i: nat)
    requires i < |calls| && |snaps| == |calls| + 1 && |answers| == |calls|
  {
    Calls(snaps[i].windows, snaps[i].since, calls[i].key, policy(calls[i].key), calls[i].now,
          answers[i], snaps[i + 1].windows, snaps[i + 1].since)
  }

  /** The limiter before each of `calls` and after the last, and the answers given, on a clock that never runs back. */
  ghost predicate Execution(policy: Key -> Policy, calls: seq<Call>, snaps: seq<Snapshot>, answers: seq<bool>) {
    && |snaps| == |calls| + 1 && |answers| == |calls| && snaps[0] == Snapshot(map[], 0)
    && (forall i, j :: 0 <= i <= j < |calls| ==> calls[i].now <= calls[j].now)
    && (forall i :: 0 <= i < |calls| ==> CallIs(policy, calls, snaps, answers, i))
  }

  /** Every key's history after the first `n` calls. */
  ghost function HistoryAfter(policy: Key -> Policy, calls: seq<Call>, snaps: seq<Snapshot>, answers: seq<bool>,
                              n: nat): History
    requires Execution(policy, calls, snaps, answers) && n <= |calls|
  {
    if n == 0 then _ => []
    else Extended(HistoryAfter(policy, calls, snaps, answers, n - 1), snaps[n - 1].windows, calls[n - 1].key,
                  policy(calls[n - 1].key), calls[n - 1].now, answers[n - 1], snaps[n].windows)
  }

  lemma StepKeeps(windows: Windows, h: History, policy: Key -> Policy, since: nat, key: Key, clock: Time, now: Time,
                  allowed: bool, after: Windows, sinceAfter: nat)
    requires Inv(windows, h, policy, clock) && clock <= now
    requires Calls(windows, since, key, policy(key), now, allowed, after, sinceAfter)
    ensures Inv(after, Extended(h, windows, key, policy(key), now, allowed, after), policy, now)
  {
    forall k ensures KeyAt(windows, h, policy, now, k) {
      assert KeyAt(windows, h, policy, clock, k);
      LaterOk(windows, k, h(k), policy(k).windowMs, clock, now);
    }
    if allowed {
      AllowedKeeps(windows, h, policy, since, key, now, after, sinceAfter);
    } else {
      RefusedKeeps(windows, h, policy, since, key, now, after, sinceAfter);
    }
  }

  /** When call `n` finds the limiter. */
  function ClockAt(calls: seq<Call>, n: nat): Time
    requires n <= |calls|
  {
    if n > 0 then calls[n - 1].now else if calls == [] then 0 else calls[0].now
  }

  lemma {:induction false} RunKeeps(policy: Key -> Policy, calls: seq<Call>, snaps: seq<Snapshot>, answers: seq<bool>,
                                   n: nat)
    requires Execution(policy, calls, snaps, answers) && n <= |calls|
    ensures Inv(snaps[n].windows, HistoryAfter(policy, calls, snaps, answers, n), policy, ClockAt(calls, n))
    decreases n
  {
    if n > 0 {
      RunKeeps(policy, calls, snaps, answers, n - 1);
      assert CallIs(policy, calls, snaps, answers, n - 1);
      var c := calls[n - 1];
      StepKeeps(snaps[n - 1].windows, HistoryAfter(policy, calls, snaps, answers, n - 1), policy, snaps[n - 1].since,
                c.key, ClockAt(calls, n - 1), c.now, answers[n - 1], snaps[n].windows, snaps[n].since);
    }
  }

  /**
   * Expiry sweeps never change an answer. Call by call, the bounded map answers as a limiter would
   * that keeps every attempt for ever and forgets a key only when a flood evicts it.
   */
  lemma SweepingIsInvisible(policy: Key -> Policy, calls: seq<Call>, snaps: seq<Snapshot>, answers: seq<bool>, n: nat)
    requires Execution(policy, calls, snaps, answers) && n < |calls|
    ensures var key := calls[n].key;
            answers[n] <==> Recent(HistoryAfter(policy, calls, snaps, answers, n)(key), calls[n].now - policy(key).windowMs)
                              < policy(key).limit
  {
    RunKeeps(policy, calls, snaps, answers, n);
    assert CallIs(policy, calls, snaps, answers, n);
    AnswersFromHistory(snaps[n].windows, HistoryAfter(policy, calls, snaps, answers, n), policy, snaps[n].since,
                       calls[n].key, ClockAt(calls, n), calls[n].now, answers[n],
                       snaps[n + 1].windows, snaps[n + 1].since);
  }

  /** With positive limits the map is within its cap after every call of every run. */
  lemma {:induction false} RunIsCapped(policy: Key -> Policy, calls: seq<Call>, snaps: seq<Snapshot>, answers: seq<bool>,
                                      n: nat)
    requires Execution(policy, calls, snaps, answers) && n <= |calls| && forall k :: policy(k).limit >= 1
    ensures |snaps[n].windows| <= HARD_CAP
    decreases n
  {
    if n > 0 {
      RunIsCapped(policy, calls, snaps, answers, n - 1);
      assert CallIs(policy, calls, snaps, answers, n - 1);
      CapIsKept(snaps[n - 1].windows, snaps[n - 1].since, calls[n - 1].key, policy(calls[n - 1].key), calls[n - 1].now,
                answers[n - 1], snaps[n].windows, snaps[n].since);
    }
  }

  // ----- how much a window admits -----

  /** A history the limiter could have produced: in order, and no hit beyond the limit when it came. */
  ghost predicate Limited(events: seq<Event>, policy: Policy) {
    events == [] ||
      var before, last := events[..|events| - 1], events[|events| - 1];
      && Limited(before, policy)
      && (before != [] ==> before[|before| - 1].at <= last.at)
      && (last.Hit? ==> Recent(before, last.at - policy.windowMs) < policy.limit)
  }

  /** Hits, and evictions, in the window that ends `windowMs` after `start`. */
  function HitsIn(events: seq<Event>, start: Time, windowMs: nat): nat {
    if events == [] then 0
    else
      var last := events[|events| - 1];
      HitsIn(events[..|events| - 1], start, windowMs)
      + (if last.Hit? && start < last.at <= start + windowMs then 1 else 0)
  }

  function EvictionsIn(events: seq<Event>, start: Time, windowMs: nat): nat {
    if events == [] then 0
    else
      var last := events[|events| - 1];
      EvictionsIn(events[..|events| - 1], start, windowMs)
      + (if last.Evicted? && start < last.at <= start + windowMs then 1 else 0)
  }

  lemma {:induction false} RecentIsMonotone(events: seq<Event>, early: Time, late: Time)
    requires early <= late
    ensures Recent(events, late) <= Recent(events, early)
    decreases |events|
  {
    if events != [] {
      RecentIsMonotone(events[..|events| - 1], early, late);
    }
  }

  lemma {:induction false} NoneYet(events: seq<Event>, policy: Policy, start: Time)
    requires Limited(events, policy) && (events != [] ==> events[|events| - 1].at <= start)
    ensures HitsIn(events, start, policy.windowMs) == 0 && Recent(events, start) == 0
    decreases |events|
  {
    if events != [] {
      NoneYet(events[..|events| - 1], policy, start);
    }
  }

  /** Within one window, the hits since the last eviction are at most `limit`, and each eviction lets in that many more. */
  lemma {:induction false} WindowSoFar(events: seq<Event>, policy: Policy, start: Time)
    requires Limited(events, policy)
    requires events != [] ==> events[|events| - 1].at <= start + policy.windowMs
    ensures Recent(events, start) <= policy.limit
    ensures HitsIn(events, start, policy.windowMs)
            <= Recent(events, start) + policy.limit * EvictionsIn(events, start, policy.windowMs)
    decreases |events|
  {
    if events != [] {
      var before, last := events[..|events| - 1], events[|events| - 1];
      WindowSoFar(before, policy, start);
      if last.Hit? {
        RecentIsMonotone(before, last.at - policy.windowMs, start);
      } else if last.at <= start {
        NoneYet(events, policy, start);
      } else {
        OneMore(policy.limit, EvictionsIn(before, start, policy.windowMs));
      }
    }
  }

  lemma OneMore(limit: nat, evictions: nat)
    ensures limit + limit * evictions == limit * (evictions + 1)
  {
  }

  lemma {:induction false} WindowBound(events: seq<Event>, policy: Policy, start: Time)
    requires Limited(events, policy)
    ensures HitsIn(events, start, policy.windowMs)
            <= policy.limit * (1 + EvictionsIn(events, start, policy.windowMs))
    decreases |events|
  {
    if events == [] || events[|events| - 1].at <= start + policy.windowMs {
      WindowSoFar(events, policy, start);
      OneMore(policy.limit, EvictionsIn(events, start, policy.windowMs));
    } else {
      WindowBound(events[..|events| - 1], policy, start);
    }
  }

  ghost predicate LimitedBy(events: seq<Event>, policy: Policy, clock: Time) {
    Limited(events, policy) && (events != [] ==> events[|events| - 1].at <= clock)
  }

  lemma AlsoLimited(events: seq<Event>, happened: bool, e: Event, policy: Policy)
    requires LimitedBy(events, policy, e.at)
    requires happened && e.Hit? ==> Recent(events, e.at - policy.windowMs) < policy.limit
    ensures LimitedBy(Also(events, happened, e), policy, e.at)
  {
    if happened {
      assert (events + [e])[..|events|] == events;
    }
  }

  lemma StepLimited(before: seq<Event>, after: seq<Event>, hit: bool, evicted: bool, clock: Time, now: Time,
                    policy: Policy)
    requires LimitedBy(before, policy, clock) && clock <= now
    requires hit ==> Recent(before, now - policy.windowMs) < policy.limit
    requires after == Also(Also(before, hit, Hit(now)), evicted, Evicted(now))
    ensures LimitedBy(after, policy, now)
  {
    AlsoLimited(before, hit, Hit(now), policy);
    AlsoLimited(Also(before, hit, Hit(now)), evicted, Evicted(now), policy);
  }

  ghost predicate DroppedIn(policy: Key -> Policy, calls: seq<Call>, snaps: seq<Snapshot>, n: nat, key: Key)
    requires n < |calls| && n + 1 < |snaps|
  {
    var c := calls[n];
    Drops(Noted(snaps[n].windows, c.key, policy(c.key), c.now), c.now, snaps[n + 1].windows, key)
  }

  /** One call appends to a key's history its hit, which was within the limit, or its eviction, or both, or nothing. */
  lemma HistoryStep(policy: Key -> Policy, calls: seq<Call>, snaps: seq<Snapshot>, answers: seq<bool>, n: nat, key: Key)
    returns (before: seq<Event>, hit: bool, evicted: bool, after: seq<Event>)
    requires Execution(policy, calls, snaps, answers) && 0 < n <= |calls|
    ensures before == HistoryAfter(policy, calls, snaps, answers, n - 1)(key)
    ensures after == HistoryAfter(policy, calls, snaps, answers, n)(key)
    ensures after == Also(Also(before, hit, Hit(calls[n - 1].now)), evicted, Evicted(calls[n - 1].now))
    ensures hit ==> Recent(before, calls[n - 1].now - policy(key).windowMs) < policy(key).limit
    ensures evicted ==> answers[n - 1] && DroppedIn(policy, calls, snaps, n - 1, key)
  {
    var c := calls[n - 1];
    before := HistoryAfter(policy, calls, snaps, answers, n - 1)(key);
    hit := answers[n - 1] && key == c.key;
    evicted := answers[n - 1] && DroppedIn(policy, calls, snaps, n - 1, key);
    after := HistoryAfter(policy, calls, snaps, answers, n)(key);
    SweepingIsInvisible(policy, calls, snaps, answers, n - 1);
  }

  lemma ClockGrows(policy: Key -> Policy, calls: seq<Call>, snaps: seq<Snapshot>, answers: seq<bool>, n: nat)
    requires Execution(policy, calls, snaps, answers) && 0 < n <= |calls|
    ensures ClockAt(calls, n - 1) <= calls[n - 1].now == ClockAt(calls, n)
  {
  }

  /** What `n` calls make of a history the limiter could have produced. */
  lemma StepIsLimited(policy: Key -> Policy, calls: seq<Call>, snaps: seq<Snapshot>, answers: seq<bool>, n: nat, key: Key)
    requires Execution(policy, calls, snaps, answers) && 0 < n <= |calls|
    requires LimitedBy(HistoryAfter(policy, calls, snaps, answers, n - 1)(key), policy(key), ClockAt(calls, n - 1))
    ensures LimitedBy(HistoryAfter(policy, calls, snaps, answers, n)(key), policy(key), ClockAt(calls, n))
  {
    ClockGrows(policy, calls, snaps, answers, n);
    var before, hit, evicted, after := HistoryStep(policy, calls, snaps, answers, n, key);
    StepLimited(before, after, hit, evicted, ClockAt(calls, n - 1), calls[n - 1].now, policy(key));
  }

  lemma {:induction false} HistoryIsLimited(policy: Key -> Policy, calls: seq<Call>, snaps: seq<Snapshot>,
                                           answers: seq<bool>, n: nat, key: Key)
    requires Execution(policy, calls, snaps, answers) && n <= |calls|
    ensures LimitedBy(HistoryAfter(policy, calls, snaps, answers, n)(key), policy(key), ClockAt(calls, n))
    decreases n
  {
    if n > 0 {
      HistoryIsLimited(policy, calls, snaps, answers, n - 1, key);
      StepIsLimited(policy, calls, snaps, answers, n, key);
    }
  }

  /**
   * The cost guard. In any run and any window of the policy's length, a key is admitted at most
   * `limit` times, and `limit` times more for each time it is evicted within that window.
   */
  lemma AdmittedPerWindow(policy: Key -> Policy, calls: seq<Call>, snaps: seq<Snapshot>, answers: seq<bool>,
                          key: Key, start: Time)
    requires Execution(policy, calls, snaps, answers)
    ensures var events := HistoryAfter(policy, calls, snaps, answers, |calls|)(key);
            HitsIn(events, start, policy(key).windowMs)
            <= policy(key).limit * (1 + EvictionsIn(events, start, policy(key).windowMs))
  {
    HistoryIsLimited(policy, calls, snaps, answers, |calls|, key);
    WindowBound(HistoryAfter(policy, calls, snaps, answers, |calls|)(key), policy(key), start);
  }

  // ----- what an eviction takes -----

  /** Call `n` ends with this key evicted. */
  ghost predicate EvictedBy(policy: Key -> Policy, calls: seq<Call>, snaps: seq<Snapshot>, answers: seq<bool>, n: nat,
                            key: Key)
    requires Execution(policy, calls, snaps, answers) && n < |calls|
  {
    var before, after := HistoryAfter(policy, calls, snaps, answers, n)(key), HistoryAfter(policy, calls, snaps, answers, n + 1)(key);
    |before| < |after| && after[|after| - 1].Evicted?
  }

  /** A key with an attempt inside its window, the one being made included. */
  ghost predicate Busy(h: History, policy: Key -> Policy, now: Time, k: Key) {
    Recent(h(k), now - policy(k).windowMs) > 0
  }

  ghost function WithHit(h: History, key: Key, now: Time): History {
    k => Also(h(k), k == key, Hit(now))
  }

  /** An entry that has not expired stands for a key with an attempt inside its window. */
  lemma UnexpiredIsBusy(windows: Windows, k: Key, events: seq<Event>, policy: Policy, now: Time)
    requires KeyOk(windows, k, events, policy.windowMs, now)
    requires k in windows && windows[k].hits != [] && !Expired(windows[k], now)
    ensures Recent(events, now - policy.windowMs) > 0
  {
    var hits, cutoff := windows[k].hits, now - policy.windowMs;
    var last := hits[|hits| - 1];
    InAfter(hits, cutoff, last);
    assert last in hits && last > cutoff;
    assert CountAfter(hits, cutoff) == Recent(events, cutoff);
  }

  /** With positive limits no entry is without an attempt. */
  ghost predicate NoneEmpty(windows: Windows) {
    forall k :: k in windows ==> windows[k].hits != []
  }

  lemma {:induction false} RunNoneEmpty(policy: Key -> Policy, calls: seq<Call>, snaps: seq<Snapshot>, answers: seq<bool>,
                                       n: nat)
    requires Execution(policy, calls, snaps, answers) && n <= |calls| && forall k :: policy(k).limit >= 1
    ensures NoneEmpty(snaps[n].windows)
    decreases n
  {
    if n > 0 {
      RunNoneEmpty(policy, calls, snaps, answers, n - 1);
      assert CallIs(policy, calls, snaps, answers, n - 1);
      assert policy(calls[n - 1].key).limit >= 1;
      NoneEmptyKept(snaps[n - 1].windows, snaps[n - 1].since, calls[n - 1].key, policy(calls[n - 1].key), calls[n - 1].now,
                    answers[n - 1], snaps[n].windows, snaps[n].since);
    }
  }

  lemma NoneEmptyKept(windows: Windows, since: nat, key: Key, policy: Policy, now: Time, allowed: bool, after: Windows,
                      sinceAfter: nat)
    requires NoneEmpty(windows) && policy.limit >= 1
    requires Calls(windows, since, key, policy, now, allowed, after, sinceAfter)
    ensures NoneEmpty(after)
  {
  }

  lemma NotedIsBusy(windows: Windows, k: Key, events: seq<Event>, mine: Policy, key: Key, policy: Policy, now: Time)
    requires KeyOk(windows, k, events, mine.windowMs, now) && (k == key ==> mine == policy)
    requires k != key && k in windows ==> windows[k].hits != []
    requires k in Noted(windows, key, policy, now) && !Expired(Noted(windows, key, policy, now)[k], now)
    ensures Recent(Also(events, k == key, Hit(now)), now - mine.windowMs) > 0
  {
    var noted := Noted(windows, key, policy, now);
    if k == key {
      AllowedKey(windows, key, events, policy, now);
    } else {
      OtherKey(windows, key, noted[key], k, events, mine.windowMs, now);
    }
    UnexpiredIsBusy(noted, k, Also(events, k == key, Hit(now)), mine, now);
  }

  lemma KeyIsOk(windows: Windows, h: History, policy: Key -> Policy, now: Time, k: Key, events: seq<Event>, mine: Policy)
    requires Inv(windows, h, policy, now) && NoneEmpty(windows) && events == h(k) && mine == policy(k)
    ensures KeyOk(windows, k, events, mine.windowMs, now) && (k in windows ==> windows[k].hits != [])
  {
    assert KeyAt(windows, h, policy, now, k);
  }

  lemma BusyWithHit(h: History, policy: Key -> Policy, key: Key, now: Time, k: Key, events: seq<Event>, mine: Policy)
    requires events == h(k) && mine == policy(k) && Recent(Also(events, k == key, Hit(now)), now - mine.windowMs) > 0
    ensures Busy(WithHit(h, key, now), policy, now, k)
  {
  }

  lemma LiveIsNoted(noted: Windows, now: Time, live: Windows, k: Key)
    requires live == Unexpired(noted, now) && k in live
    ensures k in noted && !Expired(noted[k], now)
  {
  }

  lemma LiveIsBusy(windows: Windows, h: History, policy: Key -> Policy, key: Key, now: Time, live: Windows, k: Key)
    requires Inv(windows, h, policy, now) && NoneEmpty(windows)
    requires live == Unexpired(Noted(windows, key, policy(key), now), now) && k in live
    ensures Busy(WithHit(h, key, now), policy, now, k)
  {
    var events, mine, of := h(k), policy(k), policy(key);
    KeyIsOk(windows, h, policy, now, k, events, mine);
    LiveIsNoted(Noted(windows, key, of, now), now, live, k);
    NotedIsBusy(windows, k, events, mine, key, of, now);
    BusyWithHit(h, policy, key, now, k, events, mine);
  }

  lemma FloodIsBusy(windows: Windows, h: History, policy: Key -> Policy, key: Key, now: Time, live: Windows)
    requires Inv(windows, h, policy, now) && NoneEmpty(windows)
    requires live == Unexpired(Noted(windows, key, policy(key), now), now)
    ensures forall k :: k in live ==> Busy(WithHit(h, key, now), policy, now, k)
  {
    forall k | k in live ensures Busy(WithHit(h, key, now), policy, now, k) {
      LiveIsBusy(windows, h, policy, key, now, live, k);
    }
  }

  /** A dropped key means the sweep found a flood. */
  lemma DropMeansFlood(noted: Windows, now: Time, after: Windows, key: Key)
    requires Sweeps(noted, now, after) && Drops(noted, now, after, key)
    ensures |Unexpired(noted, now)| > HARD_CAP && |after| == TARGET
  {
    assert key in Unexpired(noted, now);
  }

  /**
   * An eviction takes a flood: in any run under positive limits, when a key is evicted more than
   * `HARD_CAP` keys have an attempt inside their window, and the map is down to `TARGET` afterwards.
   */
  lemma EvictionNeedsFlood(policy: Key -> Policy, calls: seq<Call>, snaps: seq<Snapshot>, answers: seq<bool>, n: nat,
                           key: Key) returns (busy: set<Key>)
    requires Execution(policy, calls, snaps, answers) && n < |calls| && forall k :: policy(k).limit >= 1
    requires EvictedBy(policy, calls, snaps, answers, n, key)
    ensures |busy| > HARD_CAP && |snaps[n + 1].windows| == TARGET
    ensures var h := WithHit(HistoryAfter(policy, calls, snaps, answers, n), calls[n].key, calls[n].now);
            forall k :: k in busy ==> Busy(h, policy, calls[n].now, k)
  {
    var c, h, windows := calls[n], HistoryAfter(policy, calls, snaps, answers, n), snaps[n].windows;
    var noted := Noted(windows, c.key, policy(c.key), c.now);
    RunKeeps(policy, calls, snaps, answers, n);
    RunNoneEmpty(policy, calls, snaps, answers, n);
    assert CallIs(policy, calls, snaps, answers, n);
    EvictedIsDropped(policy, calls, snaps, answers, n, key);
    InvLater(windows, h, policy, ClockAt(calls, n), c.now);
    FloodIsBusy(windows, h, policy, c.key, c.now, Unexpired(noted, c.now));
    DropMeansFlood(noted, c.now, snaps[n + 1].windows, key);
    busy := Unexpired(noted, c.now).Keys;
  }

  lemma InvLater(windows: Windows, h: History, policy: Key -> Policy, clock: Time, now: Time)
    requires Inv(windows, h, policy, clock) && clock <= now
    ensures Inv(windows, h, policy, now)
  {
    forall k ensures KeyAt(windows, h, policy, now, k) {
      assert KeyAt(windows, h, policy, clock, k);
      LaterOk(windows, k, h(k), policy(k).windowMs, clock, now);
    }
  }

  lemma LastIsEvicted(before: seq<Event>, after: seq<Event>, hit: bool, evicted: bool, now: Time)
    requires after == Also(Also(before, hit, Hit(now)), evicted, Evicted(now))
    requires |before| < |after| && after[|after| - 1].Evicted?
    ensures evicted
  {
  }

  lemma DroppedBySweep(windows: Windows, since: nat, key: Key, policy: Policy, now: Time, after: Windows, sinceAfter: nat,
                       gone: Key)
    requires Calls(windows, since, key, policy, now, true, after, sinceAfter)
    requires Drops(Noted(windows, key, policy, now), now, after, gone)
    ensures Sweeps(Noted(windows, key, policy, now), now, after)
  {
  }

  lemma EvictedIsDropped(policy: Key -> Policy, calls: seq<Call>, snaps: seq<Snapshot>, answers: seq<bool>, n: nat, key: Key)
    requires Execution(policy, calls, snaps, answers) && n < |calls|
    requires EvictedBy(policy, calls, snaps, answers, n, key)
    ensures var c := calls[n]; var noted := Noted(snaps[n].windows, c.key, policy(c.key), c.now);
            && answers[n] && Sweeps(noted, c.now, snaps[n + 1].windows)
            && Drops(noted, c.now, snaps[n + 1].windows, key)
  {
    var c := calls[n];
    assert CallIs(policy, calls, snaps, answers, n);
    var before, hit, evicted, _ := HistoryStep(policy, calls, snaps, answers, n + 1, key);
    LastIsEvicted(before, HistoryAfter(policy, calls, snaps, answers, n + 1)(key), hit, evicted, c.now);
    DroppedBySweep(snaps[n].windows, snaps[n].since, c.key, policy(c.key), c.now, snaps[n + 1].windows,
                   snaps[n + 1].since, key);
  }
}
