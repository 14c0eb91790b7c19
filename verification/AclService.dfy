/**
  The ACL read model on top of the cache.  The class below runs every call to
  completion; the state machine after it lets calls interleave at their awaits.
 */
module AclService {
  import opened Wrappers
  import opened TtlCacheModel
  import C = TtlCache
  import Agreement = TtlCacheAgreement

  datatype View = View(contractAddress: string, permittedFunctions: seq<string>)

  /** `cachedAt` is the clock reading at which the snapshot was built and cached. */
  datatype Snapshot = Snapshot(contracts: seq<View>, total: nat, cachedAt: int)

  const CURRENT := "current"

  function Build(active: seq<View>, now: int): Snapshot {
    Snapshot(active, |active|, now)
  }

  /** What has just been cached is found. */
  lemma SetIsHit(c: Cache<Snapshot>, snapshot: Snapshot, ttl: int, now: int, pruned: int, max: nat)
    requires WellFormed(c) && ttl >= 0 && max > 0 && pruned <= now + ttl
    ensures Hit(SetTo(c, CURRENT, snapshot, ttl, now, pruned, max).memory, CURRENT, now) == Some(snapshot)
  {
    hide Keep, Hit;
    assert Agreement.TouchedAll(SetTo(c, CURRENT, snapshot, ttl, now, pruned, max), [], max) - {CURRENT} == {};
    Agreement.LruRetention(c, CURRENT, snapshot, ttl, now, pruned, [], max, now);
  }

  class Repository {
    var active: seq<View>

    constructor (active: seq<View>)
      ensures this.active == active
    {
      this.active := active;
    }
  }

  class Service {
    const cache: C.TtlCache<Snapshot>
    const repository: Repository
    const ttl: int

    constructor (cache: C.TtlCache<Snapshot>, repository: Repository, ttl: int)
      requires cache.Valid()
      ensures this.cache == cache && this.repository == repository && this.ttl == ttl
      ensures CURRENT !in cache.memory ==> Coherent()
    {
      this.cache, this.repository, this.ttl := cache, repository, ttl;
    }

    /** A cached snapshot is the repository's active list. */
    ghost predicate Coherent()
      reads this, cache, repository
    {
      && cache.Valid()
      && (CURRENT in cache.memory ==>
            cache.enabled &&
            var snapshot := cache.memory[CURRENT].value;
            snapshot.contracts == repository.active && snapshot.total == |repository.active|)
    }

    /** Calls that do not interleave always see the repository's active list. */
    method GetAcl(now: int, pruned: int) returns (snapshot: Snapshot)
      requires Coherent()
      modifies cache
      ensures Coherent() && repository.active == old(repository.active)
      ensures snapshot.contracts == repository.active && snapshot.total == |repository.active|
      ensures old(cache.enabled && CURRENT in cache.memory && now <= cache.memory[CURRENT].expiresAt)
              ==> snapshot == old(cache.memory[CURRENT].value)
      ensures cache.enabled && cache.maxEntries > 0 && ttl >= 0 && pruned <= now + ttl
              ==> Hit(cache.memory, CURRENT, now) == Some(snapshot)
    {
      var cached := cache.Get(CURRENT, now);
      if cached.Some? {
        return cached.value;
      }
      snapshot := Build(repository.active, now);
      ghost var missed := cache.Abs();
      cache.Set(CURRENT, snapshot, ttl, now, pruned);
      if cache.maxEntries > 0 && ttl >= 0 && pruned <= now + ttl {
        SetIsHit(missed, snapshot, ttl, now, pruned, cache.maxEntries);
      }
    }

    /** Applies an ACLUpdated event, then drops the cached snapshot. */
    method Handle(updated: seq<View>)
      requires cache.Valid()
      modifies cache, repository
      ensures repository.active == updated
      ensures cache.enabled || old(Coherent()) ==> Coherent()
    {
      repository.active := updated;
      cache.Delete(CURRENT);
    }
  }
}

/** The same calls interleaved at their awaits. */
module AclInterleaving {
  import opened Wrappers
  import opened TtlCacheModel
  import opened AclService

  /** The repository's list at a moment. */
  datatype Reading = Reading(list: seq<View>, at: int)
  datatype Served = Served(snapshot: Snapshot, at: int)

  /**
    `reading` counts calls that missed and await the repository; `loaded` holds what
    they have read and not yet cached; `invalidating` counts handlers between their
    update and their invalidation; `readings` is everything the repository answered.
   */
  datatype State = State(
    cache: Cache<Snapshot>,
    active: seq<View>,
    reading: nat,
    loaded: seq<Reading>,
    invalidating: nat,
    readings: set<Reading>,
    served: seq<Served>)

  datatype Action =
    | GetStarts(now: int)
    | Reads(now: int)
    | Caches(index: nat, now: int, pruned: int)
    | Applies(updated: seq<View>)
    | Invalidates

  predicate Enabled(s: State, a: Action) {
    match a
    case GetStarts(_) => true
    case Reads(_) => s.reading > 0
    case Caches(i, _, _) => i < |s.loaded|
    case Applies(_) => true
    case Invalidates => s.invalidating > 0
  }

  function Next(s: State, a: Action, ttl: int, max: nat): (t: State)
    requires WellFormed(s.cache) && Enabled(s, a)
    ensures WellFormed(t.cache)
  {
    match a
    case GetStarts(now) =>
      var t := s.(cache := GetFrom(s.cache, CURRENT, now));
      (match Hit(s.cache.memory, CURRENT, now)
       case Some(snapshot) => t.(served := s.served + [Served(snapshot, now)])
       case None => t.(reading := s.reading + 1))
    case Reads(now) =>
      var reading := Reading(s.active, now);
      s.(reading := s.reading - 1, loaded := s.loaded + [reading], readings := s.readings + {reading})
    case Caches(i, now, pruned) =>
      var snapshot := Build(s.loaded[i].list, now);
      s.(cache := SetTo(s.cache, CURRENT, snapshot, ttl, now, pruned, max),
         loaded := s.loaded[..i] + s.loaded[i + 1..],
         served := s.served + [Served(snapshot, now)])
    case Applies(updated) => s.(active := updated, invalidating := s.invalidating + 1)
    case Invalidates => s.(cache := Drop(s.cache, {CURRENT}), invalidating := s.invalidating - 1)
  }

  ghost predicate CanRun(s: State, run: seq<Action>, ttl: int, max: nat)
    requires WellFormed(s.cache)
    decreases |run|
  {
    run == [] || (Enabled(s, run[0]) && CanRun(Next(s, run[0], ttl, max), run[1..], ttl, max))
  }

  ghost function After(s: State, run: seq<Action>, ttl: int, max: nat): State
    requires WellFormed(s.cache) && CanRun(s, run, ttl, max)
    decreases |run|
  {
    if run == [] then s else After(Next(s, run[0], ttl, max), run[1..], ttl, max)
  }

  function Start(active: seq<View>): State {
    State(Cache([], map[]), active, 0, [], 0, {}, [])
  }

  /** The calls that start in a run. */
  function Calls(run: seq<Action>): nat {
    if run == [] then 0 else (if run[0].GetStarts? then 1 else 0) + Calls(run[1..])
  }

  /** No call is lost or answered twice: each is answered, awaits the repository, or has yet to cache. */
  lemma {:induction false} EveryCallIsAnswered(s: State, run: seq<Action>, ttl: int, max: nat)
    requires WellFormed(s.cache) && CanRun(s, run, ttl, max)
    ensures var t := After(s, run, ttl, max);
            |t.served| + t.reading + |t.loaded| == |s.served| + s.reading + |s.loaded| + Calls(run)
    decreases |run|
  {
    hide WellFormed, SetTo, GetFrom, Drop;
    if run != [] {
      EveryCallIsAnswered(Next(s, run[0], ttl, max), run[1..], ttl, max);
    }
  }

  /** A starting call leaves no expired list in the cache. */
  lemma StartDropsExpired(s: State, now: int, ttl: int, max: nat)
    requires WellFormed(s.cache)
    ensures var t := Next(s, GetStarts(now), ttl, max);
            CURRENT in t.cache.memory ==> now <= t.cache.memory[CURRENT].expiresAt
  {
    hide Keep, WellFormed;
  }

  // ---- what is served was true, and not long ago

  /** The list was the repository's at most `flight` before it was cached. */
  ghost predicate WasTrue(s: State, snapshot: Snapshot, flight: int) {
    && snapshot.total == |snapshot.contracts|
    && exists r <- s.readings :: r.list == snapshot.contracts && snapshot.cachedAt <= r.at + flight
  }

  ghost predicate Honest(s: State, ttl: int, flight: int) {
    && WellFormed(s.cache)
    && (forall r <- s.loaded :: r in s.readings)
    && (CURRENT in s.cache.memory ==>
          var entry := s.cache.memory[CURRENT];
          WasTrue(s, entry.value, flight) && entry.expiresAt == entry.value.cachedAt + ttl)
    && (forall v <- s.served :: WasTrue(s, v.snapshot, flight) && v.at <= v.snapshot.cachedAt + ttl)
  }

  /** Between reading and caching a call takes at most `flight`. */
  predicate Prompt(s: State, a: Action, flight: int)
    requires Enabled(s, a)
  {
    a.Caches? ==> a.now <= s.loaded[a.index].at + flight
  }

  lemma CachedAfterSet(c: Cache<Snapshot>, snapshot: Snapshot, ttl: int, now: int, pruned: int, max: nat)
    requires WellFormed(c)
    ensures var d := SetTo(c, CURRENT, snapshot, ttl, now, pruned, max);
            WellFormed(d) && (CURRENT in d.memory ==> d.memory[CURRENT] == Entry(snapshot, now + ttl))
  {
    hide Keep, WellFormed;
  }

  lemma CachedAfterGet(c: Cache<Snapshot>, now: int)
    requires WellFormed(c)
    ensures var d := GetFrom(c, CURRENT, now);
            WellFormed(d) && (CURRENT in d.memory ==> CURRENT in c.memory && d.memory[CURRENT] == c.memory[CURRENT])
  {
    hide Keep, WellFormed;
  }

  lemma DroppedIsGone(c: Cache<Snapshot>)
    requires WellFormed(c)
    ensures WellFormed(Drop(c, {CURRENT})) && CURRENT !in Drop(c, {CURRENT}).memory
  {
    hide Keep, WellFormed;
  }

  lemma StaysTrue(s: State, t: State, snapshot: Snapshot, flight: int)
    requires s.readings <= t.readings && WasTrue(s, snapshot, flight)
    ensures WasTrue(t, snapshot, flight)
  {
    var r :| r in s.readings && r.list == snapshot.contracts && snapshot.cachedAt <= r.at + flight;
    assert r in t.readings;
  }

  lemma JustRead(s: State, r: Reading, now: int, flight: int)
    requires r in s.readings && now <= r.at + flight
    ensures WasTrue(s, Build(r.list, now), flight)
  {}

  lemma NextIsHonest(s: State, a: Action, ttl: int, max: nat, flight: int)
    requires Honest(s, ttl, flight) && Enabled(s, a) && Prompt(s, a, flight) && ttl >= 0
    ensures Honest(Next(s, a, ttl, max), ttl, flight)
  {
    hide WellFormed, SetTo, GetFrom, Drop, WasTrue;
    var t := Next(s, a, ttl, max);
    forall snapshot | WasTrue(s, snapshot, flight) ensures WasTrue(t, snapshot, flight) {
      StaysTrue(s, t, snapshot, flight);
    }
    match a
    case GetStarts(now) => CachedAfterGet(s.cache, now);
    case Caches(i, now, pruned) =>
      assert s.loaded[i] in s.loaded;
      JustRead(t, s.loaded[i], now, flight);
      CachedAfterSet(s.cache, Build(s.loaded[i].list, now), ttl, now, pruned, max);
    case _ => DroppedIsGone(s.cache);
  }

  ghost predicate AllPrompt(s: State, run: seq<Action>, ttl: int, max: nat, flight: int)
    requires WellFormed(s.cache) && CanRun(s, run, ttl, max)
    decreases |run|
  {
    run == [] || (Prompt(s, run[0], flight) && AllPrompt(Next(s, run[0], ttl, max), run[1..], ttl, max, flight))
  }

  lemma {:induction false} RunIsHonest(s: State, run: seq<Action>, ttl: int, max: nat, flight: int)
    requires Honest(s, ttl, flight) && CanRun(s, run, ttl, max) && AllPrompt(s, run, ttl, max, flight) && ttl >= 0
    ensures Honest(After(s, run, ttl, max), ttl, flight)
    decreases |run|
  {
    if run != [] {
      NextIsHonest(s, run[0], ttl, max, flight);
      RunIsHonest(Next(s, run[0], ttl, max), run[1..], ttl, max, flight);
    }
  }

  /**
    Every list served was the repository's at some moment, and that moment lies back
    at most the TTL and the time a call takes from its read to its caching.
   */
  lemma ServedSnapshotsWereTrue(active: seq<View>, run: seq<Action>, ttl: int, max: nat, flight: int)
    requires CanRun(Start(active), run, ttl, max) && AllPrompt(Start(active), run, ttl, max, flight) && ttl >= 0
    ensures var s := After(Start(active), run, ttl, max);
            forall v <- s.served :: exists r <- s.readings ::
              r.list == v.snapshot.contracts && v.at <= r.at + flight + ttl
  {
    RunIsHonest(Start(active), run, ttl, max, flight);
    var s := After(Start(active), run, ttl, max);
    forall v <- s.served ensures exists r <- s.readings ::
        r.list == v.snapshot.contracts && v.at <= r.at + flight + ttl {
      assert WasTrue(s, v.snapshot, flight);
    }
  }

  // ---- when reads are current

  /** Updates and invalidations read no clock. */
  function Clock(a: Action, last: int): int {
    match a
    case GetStarts(now) => now
    case Reads(now) => now
    case Caches(_, now, _) => now
    case _ => last
  }

  predicate NotBefore(run: seq<Action>, from: int) {
    forall a <- run :: from <= Clock(a, from)
  }

  /** A clock that does not run backwards, from `from` to `now`. */
  predicate OnClock(run: seq<Action>, from: int, now: int) {
    if run == [] then from <= now
    else from <= Clock(run[0], from) && OnClock(run[1..], Clock(run[0], from), now)
  }

  /**
    Lists in flight are current, and so is the cached one, unless it has expired by
    `from` or some handler has not invalidated yet.
   */
  ghost predicate Current(s: State, from: int) {
    && WellFormed(s.cache)
    && (forall r <- s.loaded :: r.list == s.active)
    && (CURRENT in s.cache.memory && s.invalidating == 0 && from <= s.cache.memory[CURRENT].expiresAt ==>
          s.cache.memory[CURRENT].value.contracts == s.active)
  }

  /** No call is between its read and its caching when an update changes the list. */
  predicate Undisturbed(s: State, a: Action) {
    a.Applies? ==> s.loaded == [] || a.updated == s.active
  }

  /** The list stays current exactly while no update hits a read in flight. */
  lemma NextIsCurrentExactly(s: State, a: Action, ttl: int, max: nat, from: int)
    requires Current(s, from) && Enabled(s, a) && from <= Clock(a, from)
    ensures Current(Next(s, a, ttl, max), from) <==> Undisturbed(s, a)
  {
    hide WellFormed, SetTo, GetFrom, Drop;
    match a
    case GetStarts(now) => CachedAfterGet(s.cache, now);
    case Caches(i, now, pruned) =>
      assert s.loaded[i] in s.loaded;
      var t := Next(s, a, ttl, max);
      assert t.loaded == s.loaded[..i] + s.loaded[i + 1..] && t.active == s.active;
      forall r <- t.loaded ensures r in s.loaded {
        assert r in s.loaded[..i] || r in s.loaded[i + 1..];
      }
      CachedAfterSet(s.cache, Build(s.loaded[i].list, now), ttl, now, pruned, max);
    case Applies(updated) =>
      if s.loaded != [] {
        assert s.loaded[0] in s.loaded;
      }
    case _ => DroppedIsGone(s.cache);
  }

  ghost predicate AllUndisturbed(s: State, run: seq<Action>, ttl: int, max: nat)
    requires WellFormed(s.cache) && CanRun(s, run, ttl, max)
    decreases |run|
  {
    run == [] || (Undisturbed(s, run[0]) && AllUndisturbed(Next(s, run[0], ttl, max), run[1..], ttl, max))
  }

  /** So after any such run the next read, once handlers have finished, is the repository's list. */
  lemma {:induction false} UndisturbedRunsAreCurrent(
      s: State, run: seq<Action>, ttl: int, max: nat, from: int, now: int)
    requires Current(s, from) && CanRun(s, run, ttl, max) && AllUndisturbed(s, run, ttl, max)
    requires NotBefore(run, from) && from <= now
    ensures var t := After(s, run, ttl, max);
            && Current(t, from)
            && (t.invalidating == 0 ==>
                  match Hit(t.cache.memory, CURRENT, now)
                  case Some(snapshot) => snapshot.contracts == t.active
                  case None => true)
    decreases |run|
  {
    if run != [] {
      assert run[0] in run;
      NextIsCurrentExactly(s, run[0], ttl, max, from);
      UndisturbedRunsAreCurrent(Next(s, run[0], ttl, max), run[1..], ttl, max, from, now);
    }
  }

  // ---- and when they are not

  /** After the run every handler has finished, and a read that starts then is answered with an old list. */
  ghost predicate ReadsStale(s: State, run: seq<Action>, now: int, ttl: int, max: nat)
    requires WellFormed(s.cache)
  {
    && CanRun(s, run, ttl, max)
    && var t := After(s, run, ttl, max);
       && t.invalidating == 0
       && match Hit(t.cache.memory, CURRENT, now)
          case Some(snapshot) => snapshot.contracts != t.active
          case None => false
  }

  predicate NoUpdate(run: seq<Action>) {
    forall a <- run :: !a.Applies?
  }

  lemma RunStep(s: State, a: Action, rest: seq<Action>, from: int, now: int, ttl: int, max: nat)
    requires WellFormed(s.cache) && Enabled(s, a) && from <= Clock(a, from) && OnClock(rest, Clock(a, from), now)
    requires ReadsStale(Next(s, a, ttl, max), rest, now, ttl, max)
    ensures ReadsStale(s, [a] + rest, now, ttl, max) && OnClock([a] + rest, from, now)
    ensures After(s, [a] + rest, ttl, max) == After(Next(s, a, ttl, max), rest, ttl, max)
    ensures NoUpdate(rest) && !a.Applies? ==> NoUpdate([a] + rest)
  {
    hide WellFormed, Next, Hit;
    assert ([a] + rest)[1..] == rest;
  }

  lemma {:induction false} NoUpdateMeansUndisturbed(s: State, run: seq<Action>, ttl: int, max: nat)
    requires WellFormed(s.cache) && CanRun(s, run, ttl, max) && NoUpdate(run)
    ensures AllUndisturbed(s, run, ttl, max)
    decreases |run|
  {
    if run != [] {
      assert run[0] in run;
      NoUpdateMeansUndisturbed(Next(s, run[0], ttl, max), run[1..], ttl, max);
    }
  }

  lemma {:induction false} OnClockIsNotBefore(run: seq<Action>, from: int, now: int)
    requires OnClock(run, from, now)
    ensures NotBefore(run, from) && from <= now
  {
    if run != [] {
      OnClockIsNotBefore(run[1..], Clock(run[0], from), now);
      assert forall a <- run :: a == run[0] || a in run[1..];
    }
  }

  /** Once the handlers have finished, caching an old list makes it the answer to the next read. */
  lemma {:induction false} OldListGetsServed(s: State, i: nat, now: int, ttl: int, max: nat) returns (run: seq<Action>)
    requires WellFormed(s.cache) && ttl >= 0 && max > 0
    requires i < |s.loaded| && s.loaded[i].list != s.active
    ensures NoUpdate(run) && OnClock(run, now, now)
    ensures ReadsStale(s, run, now, ttl, max) && After(s, run, ttl, max).active == s.active
    ensures Hit(After(s, run, ttl, max).cache.memory, CURRENT, now) == Some(Build(s.loaded[i].list, now))
    decreases s.invalidating
  {
    hide WellFormed, SetTo, Drop, Hit;
    if s.invalidating > 0 {
      var rest := OldListGetsServed(Next(s, Invalidates, ttl, max), i, now, ttl, max);
      RunStep(s, Invalidates, rest, now, now, ttl, max);
      run := [Invalidates] + rest;
    } else {
      var caches, snapshot := Caches(i, now, now), Build(s.loaded[i].list, now);
      SetIsHit(s.cache, snapshot, ttl, now, now, max);
      assert ReadsStale(Next(s, caches, ttl, max), [], now, ttl, max);
      RunStep(s, caches, [], now, now, ttl, max);
      run := [caches] + [];
    }
  }

  /**
    Main result: from any state and moment, without further updates, some read that
    starts after all handlers have finished is answered with an old list exactly when
    an old list is in flight, or cached and live with no invalidation due.
   */
  lemma StaleReadsExactly(s: State, from: int, ttl: int, max: nat)
    requires WellFormed(s.cache) && ttl >= 0 && max > 0
    ensures (exists run, now :: NoUpdate(run) && OnClock(run, from, now) && ReadsStale(s, run, now, ttl, max))
            <==> !Current(s, from)
  {
    hide WellFormed;
    if Current(s, from) {
      forall run, now | NoUpdate(run) && OnClock(run, from, now) ensures !ReadsStale(s, run, now, ttl, max) {
        if CanRun(s, run, ttl, max) {
          NoUpdateMeansUndisturbed(s, run, ttl, max);
          OnClockIsNotBefore(run, from, now);
          UndisturbedRunsAreCurrent(s, run, ttl, max, from, now);
        }
      }
    } else if i :| 0 <= i < |s.loaded| && s.loaded[i].list != s.active {
      var run := OldListGetsServed(s, i, from, ttl, max);
    } else {
      assert forall r <- s.loaded :: r.list == s.active;
      assert NoUpdate([]) && OnClock([], from, from) && ReadsStale(s, [], from, ttl, max);
    }
  }

  /** Such states are reached, for any lists and TTL: an update arrives between a reader's read and its caching. */
  lemma DisturbedReadIsStale(before: seq<View>, updated: seq<View>, ttl: int, max: nat, now: int)
      returns (run: seq<Action>)
    requires before != updated && ttl >= 0 && max > 0
    ensures ReadsStale(Start(before), run, now, ttl, max) && OnClock(run, now, now)
    ensures var t := After(Start(before), run, ttl, max);
            t.active == updated && Hit(t.cache.memory, CURRENT, now) == Some(Build(before, now))
  {
    var s0 := Start(before);
    var s1 := Next(s0, GetStarts(now), ttl, max);
    var s2 := Next(s1, Reads(now), ttl, max);
    var s3 := Next(s2, Applies(updated), ttl, max);
    assert s3.loaded == [Reading(before, now)] && s3.active == updated;
    var rest := OldListGetsServed(s3, 0, now, ttl, max);
    hide Next;
    RunStep(s2, Applies(updated), rest, now, now, ttl, max);
    RunStep(s1, Reads(now), [Applies(updated)] + rest, now, now, ttl, max);
    run := [GetStarts(now)] + ([Reads(now)] + ([Applies(updated)] + rest));
    RunStep(s0, GetStarts(now), [Reads(now)] + ([Applies(updated)] + rest), now, now, ttl, max);
  }
}
