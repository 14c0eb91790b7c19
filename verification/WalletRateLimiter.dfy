/**
  The per-wallet fixed-window limiter and its periodic cleanup.  Times are in
  milliseconds.
 */
module WalletRateLimiter {
  import opened Wrappers
  import opened Shared

  datatype Entry = Entry(count: nat, windowStart: int)
  type Store = map<string, Entry>

  datatype Config = Config(windowMs: int, maxRequests: int)

  datatype Outcome = Unauthorized | Admitted | Limited(retryAfterSeconds: int)

  predicate Stale(entry: Entry, now: int, cfg: Config) {
    now - entry.windowStart >= cfg.windowMs
  }

  /** The decision on one wallet's entry; a limited request leaves it as it is. */
  function Decide(entry: Option<Entry>, now: int, cfg: Config): (Option<Entry>, Outcome) {
    if entry.None? || Stale(entry.value, now, cfg) then (Some(Entry(1, now)), Admitted)
    else if entry.value.count >= cfg.maxRequests then
      (entry, Limited(CeilSeconds(cfg.windowMs - (now - entry.value.windowStart))))
    else (Some(entry.value.(count := entry.value.count + 1)), Admitted)
  }

  function Lookup(store: Store, wallet: string): Option<Entry> {
    if wallet in store then Some(store[wallet]) else None
  }

  datatype Event = Request(wallet: Option<string>, now: int) | CleanUp(now: int)

  /** An empty address counts as none. */
  predicate Authenticated(wallet: Option<string>) {
    wallet.Some? && wallet.value != ""
  }

  function CleanStore(store: Store, now: int, cfg: Config): Store {
    map k <- store | !Stale(store[k], now, cfg) :: store[k]
  }

  function Handle(store: Store, event: Event, cfg: Config): (Store, seq<Outcome>) {
    match event
    case Request(wallet, now) =>
      if !Authenticated(wallet) then (store, [Unauthorized])
      else
        var (entry, outcome) := Decide(Lookup(store, wallet.value), now, cfg);
        (if entry.Some? then store[wallet.value := entry.value] else store, [outcome])
    case CleanUp(now) => (CleanStore(store, now, cfg), [])
  }

  class Limiter {
    const cfg: Config
    var store: Store

    constructor (cfg: Config)
      ensures this.cfg == cfg && store == map[]
    {
      this.cfg := cfg;
      store := map[];
    }

    method HandleRequest(wallet: Option<string>, now: int) returns (outcome: Outcome)
      modifies this
      ensures (store, [outcome]) == Handle(old(store), Request(wallet, now), cfg)
      ensures outcome == Unauthorized <==> wallet.None? || wallet.value == ""
      ensures outcome.Limited? ==>
                var rest := store[wallet.value].windowStart + cfg.windowMs - now;
                && outcome.retryAfterSeconds >= 1
                && 1000 * (outcome.retryAfterSeconds - 1) < rest <= 1000 * outcome.retryAfterSeconds
    {
      if wallet.None? || wallet.value == "" {
        return Unauthorized;
      }
      var key := wallet.value;
      if key !in store || now - store[key].windowStart >= cfg.windowMs {
        store := store[key := Entry(1, now)];
        return Admitted;
      }
      var entry := store[key];
      if entry.count >= cfg.maxRequests {
        assert store[key := entry] == store;
        return Limited(CeilSeconds(cfg.windowMs - (now - entry.windowStart)));
      }
      store := store[key := entry.(count := entry.count + 1)];
      return Admitted;
    }

    /** Deletes stale entries one by one while iterating over the store. */
    method CleanUpStale(now: int)
      modifies this
      ensures store == CleanStore(old(store), now, cfg)
      ensures forall k :: k in store <==> k in old(store) && now - old(store)[k].windowStart < cfg.windowMs
      ensures forall k <- store :: store[k] == old(store)[k]
    {
      var visit := store.Keys;
      while visit != {}
        invariant store.Keys <= old(store).Keys && visit <= store.Keys
        invariant forall k <- store :: store[k] == old(store)[k]
        invariant forall k <- old(store) :: k in store || Stale(old(store)[k], now, cfg)
        invariant forall k <- store :: k in visit || !Stale(store[k], now, cfg)
        decreases |visit|
      {
        var key :| key in visit;
        visit := visit - {key};
        if now - store[key].windowStart >= cfg.windowMs {
          store := store - {key};
        }
      }
    }
  }

  // ---- the bound on any interval of one window's length

  /** The limit the code enforces: the first request of a window is always admitted. */
  function Limit(cfg: Config): nat {
    if cfg.maxRequests < 1 then 1 else cfg.maxRequests
  }

  /** The number of admissions at or after `from`. */
  function Since(times: seq<int>, from: int): nat {
    if times == [] then 0
    else Since(times[..|times| - 1], from) + if from <= times[|times| - 1] then 1 else 0
  }

  /** The number of admissions in [from, to). */
  function Between(times: seq<int>, from: int, to: int): nat {
    if times == [] then 0
    else Between(times[..|times| - 1], from, to) + if from <= times[|times| - 1] < to then 1 else 0
  }

  lemma SinceAppend(times: seq<int>, x: int, from: int)
    ensures Since(times + [x], from) == Since(times, from) + if from <= x then 1 else 0
  {
    assert (times + [x])[..|times|] == times;
  }

  lemma BetweenAppend(times: seq<int>, x: int, from: int, to: int)
    ensures Between(times + [x], from, to) == Between(times, from, to) + if from <= x < to then 1 else 0
  {
    assert (times + [x])[..|times|] == times;
  }

  lemma {:induction false} BetweenIsSince(times: seq<int>, from: int, to: int)
    ensures Between(times, from, to) <= Since(times, from)
  {
    if times != [] {
      BetweenIsSince(times[..|times| - 1], from, to);
    }
  }

  lemma {:induction false} SinceFalls(times: seq<int>, from: int, later: int)
    requires from <= later
    ensures Since(times, later) <= Since(times, from)
  {
    if times != [] {
      SinceFalls(times[..|times| - 1], from, later);
    }
  }

  lemma {:induction false} NoneSince(times: seq<int>, from: int)
    requires forall i :: 0 <= i < |times| ==> times[i] < from
    ensures Since(times, from) == 0
  {
    if times != [] {
      NoneSince(times[..|times| - 1], from);
    }
  }

  /** What the entry says of all admissions so far. */
  ghost predicate EntrySound(entry: Entry, times: seq<int>, last: int, cfg: Config) {
    && entry.windowStart <= last
    && 1 <= entry.count <= Limit(cfg)
    && (forall i :: 0 <= i < |times| ==> times[i] < entry.windowStart + cfg.windowMs)
    && Since(times, entry.windowStart) == entry.count
    && Since(times, entry.windowStart + 1) < entry.count
    && (forall t :: entry.windowStart - cfg.windowMs < t ==> Since(times, t) < entry.count + Limit(cfg))
  }

  ghost predicate Sound(entry: Option<Entry>, times: seq<int>, last: int, cfg: Config) {
    match entry
    case None => times == []
    case Some(e) => EntrySound(e, times, last, cfg)
  }

  ghost predicate WindowsBounded(times: seq<int>, cfg: Config) {
    forall t :: InWindow(times, t, cfg) <= 2 * Limit(cfg) - 1
  }

  function InWindow(times: seq<int>, from: int, cfg: Config): nat {
    Between(times, from, from + cfg.windowMs)
  }

  lemma NewWindowIsSound(entry: Option<Entry>, times: seq<int>, last: int, now: int, cfg: Config)
    requires cfg.windowMs > 0 && last <= now
    requires match entry case None => times == [] case Some(e) => EntrySound(e, times, last, cfg) && Stale(e, now, cfg)
    ensures EntrySound(Entry(1, now), times + [now], now, cfg)
  {
    var all := times + [now];
    forall t ensures Since(all, t) == Since(times, t) + if t <= now then 1 else 0 {
      SinceAppend(times, now, t);
    }
    NoneSince(times, now);
    NoneSince(times, now + 1);
    forall t | now - cfg.windowMs < t ensures Since(all, t) < 1 + Limit(cfg) {
      if entry.Some? {
        SinceFalls(times, entry.value.windowStart + 1, t);
      }
    }
  }

  lemma SameWindowIsSound(entry: Entry, times: seq<int>, last: int, now: int, cfg: Config)
    requires cfg.windowMs > 0 && last <= now && EntrySound(entry, times, last, cfg)
    requires !Stale(entry, now, cfg) && entry.count < cfg.maxRequests
    ensures EntrySound(entry.(count := entry.count + 1), times + [now], now, cfg)
  {
    forall t ensures Since(times + [now], t) == Since(times, t) + if t <= now then 1 else 0 {
      SinceAppend(times, now, t);
    }
  }

  lemma AdmissionKeepsWindows(entry: Entry, times: seq<int>, now: int, cfg: Config)
    requires cfg.windowMs > 0 && WindowsBounded(times, cfg)
    requires EntrySound(entry, times + [now], now, cfg)
    ensures WindowsBounded(times + [now], cfg)
  {
    hide Since, Between;
    var all := times + [now];
    forall t ensures InWindow(all, t, cfg) <= 2 * Limit(cfg) - 1 {
      BetweenAppend(times, now, t, t + cfg.windowMs);
      assert InWindow(times, t, cfg) <= 2 * Limit(cfg) - 1;
      if entry.windowStart - cfg.windowMs < t {
        BetweenIsSince(all, t, t + cfg.windowMs);
      }
    }
  }

  lemma LaterIsSound(entry: Entry, times: seq<int>, last: int, now: int, cfg: Config)
    requires EntrySound(entry, times, last, cfg) && last <= now
    ensures EntrySound(entry, times, now, cfg)
  {}

  lemma StepIsSound(entry: Option<Entry>, times: seq<int>, last: int, now: int, cfg: Config)
    requires cfg.windowMs > 0 && last <= now && Sound(entry, times, last, cfg)
    ensures var (after, outcome) := Decide(entry, now, cfg);
            Sound(after, if outcome.Admitted? then times + [now] else times, now, cfg)
  {
    hide Since, EntrySound;
    if entry.None? || Stale(entry.value, now, cfg) {
      NewWindowIsSound(entry, times, last, now, cfg);
    } else if Decide(entry, now, cfg).1.Admitted? {
      SameWindowIsSound(entry.value, times, last, now, cfg);
    } else {
      LaterIsSound(entry.value, times, last, now, cfg);
    }
  }

  /** The admissions of one wallet over a run of its requests. */
  function Admissions(entry: Option<Entry>, requests: seq<int>, cfg: Config): seq<int>
    decreases |requests|
  {
    if requests == [] then []
    else
      var (after, outcome) := Decide(entry, requests[0], cfg);
      (if outcome.Admitted? then [requests[0]] else []) + Admissions(after, requests[1..], cfg)
  }

  lemma {:induction false} RunKeepsWindows(
      entry: Option<Entry>, times: seq<int>, last: int, requests: seq<int>, cfg: Config)
    requires cfg.windowMs > 0 && Ascending(requests, last) && WindowsBounded(times, cfg)
    requires Sound(entry, times, last, cfg)
    ensures WindowsBounded(times + Admissions(entry, requests, cfg), cfg)
    decreases |requests|
  {
    hide WindowsBounded, Since, EntrySound;
    if requests == [] {
      assert times + [] == times;
    } else {
      var now := requests[0];
      var (after, outcome) := Decide(entry, now, cfg);
      var rest := Admissions(after, requests[1..], cfg);
      StepIsSound(entry, times, last, now, cfg);
      if outcome.Admitted? {
        AdmissionKeepsWindows(after.value, times, now, cfg);
        RunKeepsWindows(after, times + [now], now, requests[1..], cfg);
        assert times + [now] + rest == times + ([now] + rest);
      } else {
        RunKeepsWindows(after, times, now, requests[1..], cfg);
        assert [] + rest == rest;
      }
    }
  }

  /** Any half-open interval of one window's length holds at most 2 * limit - 1 admissions of a wallet. */
  lemma AtMostTwiceTheLimitLessOne(requests: seq<int>, start: int, cfg: Config, t: int)
    requires cfg.windowMs > 0 && Ascending(requests, start)
    ensures Between(Admissions(None, requests, cfg), t, t + cfg.windowMs) <= 2 * Limit(cfg) - 1
  {
    var admitted := Admissions(None, requests, cfg);
    RunKeepsWindows(None, [], start, requests, cfg);
    assert [] + admitted == admitted;
    assert InWindow(admitted, t, cfg) <= 2 * Limit(cfg) - 1;
  }

  /** The entry a run of requests leaves. */
  function EntryAfter(entry: Option<Entry>, requests: seq<int>, cfg: Config): Option<Entry>
    decreases |requests|
  {
    if requests == [] then entry else EntryAfter(Decide(entry, requests[0], cfg).0, requests[1..], cfg)
  }

  lemma {:induction false} RunIsSound(entry: Option<Entry>, times: seq<int>, last: int, requests: seq<int>, cfg: Config)
    requires cfg.windowMs > 0 && Ascending(requests, last) && Sound(entry, times, last, cfg)
    ensures Sound(EntryAfter(entry, requests, cfg), times + Admissions(entry, requests, cfg),
                  if requests == [] then last else requests[|requests| - 1], cfg)
    decreases |requests|
  {
    hide Decide, Sound;
    if requests == [] {
      assert times + [] == times;
    } else {
      var now := requests[0];
      var (after, outcome) := Decide(entry, now, cfg);
      var rest := Admissions(after, requests[1..], cfg);
      var sofar := if outcome.Admitted? then times + [now] else times;
      StepIsSound(entry, times, last, now, cfg);
      RunIsSound(after, sofar, now, requests[1..], cfg);
      assert sofar + rest == times + ((if outcome.Admitted? then [now] else []) + rest);
    }
  }

  /** Nobody is refused early: when a request is limited, the limit was admitted within the window that ends with it. */
  lemma DenialsAreEarned(requests: seq<int>, start: int, now: int, cfg: Config)
    requires cfg.windowMs > 0 && Ascending(requests, start)
    requires Decide(EntryAfter(None, requests, cfg), now, cfg).1.Limited?
    ensures Since(Admissions(None, requests, cfg), now - cfg.windowMs + 1) >= Limit(cfg)
  {
    hide Since;
    RunIsSound(None, [], start, requests, cfg);
    var admitted, entry := Admissions(None, requests, cfg), EntryAfter(None, requests, cfg).value;
    assert [] + admitted == admitted;
    SinceFalls(admitted, now - cfg.windowMs + 1, entry.windowStart);
  }

  /** The hint of a refusal is the least number of whole seconds after which a request is admitted. */
  lemma RetryAfterIsLeast(entry: Entry, now: int, cfg: Config, seconds: nat)
    requires Decide(Some(entry), now, cfg).1.Limited?
    ensures Decide(Some(entry), now + 1000 * seconds, cfg).1.Admitted? <==>
              seconds >= Decide(Some(entry), now, cfg).1.retryAfterSeconds
  {}

  function Repeat(t: int, n: nat): seq<int> {
    if n == 0 then [] else [t] + Repeat(t, n - 1)
  }

  lemma OneIsAdmitted(entry: Entry, t: int, more: seq<int>, cfg: Config)
    requires !Stale(entry, t, cfg) && entry.count < cfg.maxRequests
    ensures Admissions(Some(entry), [t] + more, cfg)
         == [t] + Admissions(Some(entry.(count := entry.count + 1)), more, cfg)
  {
    assert ([t] + more)[1..] == more;
  }

  lemma {:induction false} BurstIsAdmitted(entry: Entry, t: int, n: nat, rest: seq<int>, cfg: Config)
    requires !Stale(entry, t, cfg) && entry.count + n <= cfg.maxRequests
    ensures Admissions(Some(entry), Repeat(t, n) + rest, cfg)
         == Repeat(t, n) + Admissions(Some(entry.(count := entry.count + n)), rest, cfg)
    decreases n
  {
    hide Admissions;
    if n == 0 {
      assert Repeat(t, n) + rest == rest;
    } else {
      assert Repeat(t, n) + rest == [t] + (Repeat(t, n - 1) + rest);
      OneIsAdmitted(entry, t, Repeat(t, n - 1) + rest, cfg);
      BurstIsAdmitted(entry.(count := entry.count + 1), t, n - 1, rest, cfg);
    }
  }

  lemma {:induction false} BetweenRepeat(times: seq<int>, x: int, n: nat, from: int, to: int)
    requires from <= x < to
    ensures Between(times + Repeat(x, n), from, to) == Between(times, from, to) + n
    decreases n
  {
    if n == 0 {
      assert times + Repeat(x, n) == times;
    } else {
      assert times + Repeat(x, n) == (times + [x]) + Repeat(x, n - 1);
      BetweenRepeat(times + [x], x, n - 1, from, to);
      BetweenAppend(times, x, from, to);
    }
  }

  lemma TwoBursts(cfg: Config)
    requires cfg.windowMs > 1 && cfg.maxRequests >= 1
    ensures var w, m := cfg.windowMs, cfg.maxRequests;
            var burst := [0] + (Repeat(w - 1, m - 1) + ([w] + Repeat(w, m - 1)));
            Admissions(None, burst, cfg) == burst
  {
    hide Repeat, Since, Between;
    var w, m := cfg.windowMs, cfg.maxRequests;
    var late, next := Repeat(w - 1, m - 1), Repeat(w, m - 1);
    var second := [w] + next;
    BurstIsAdmitted(Entry(1, w), w, m - 1, [], cfg);
    assert next + [] == next && second[1..] == next;
    assert Admissions(Some(Entry(1, w)), next, cfg) == next;
    assert Admissions(Some(Entry(m, 0)), second, cfg) == second;
    BurstIsAdmitted(Entry(1, 0), w - 1, m - 1, second, cfg);
    assert ([0] + (late + second))[1..] == late + second;
  }

  /** The bound is reached, whatever the limit; one below one acts as one. */
  lemma TheBoundIsReached(cfg: Config) returns (requests: seq<int>, t: int)
    requires cfg.windowMs > 1
    ensures Between(Admissions(None, requests, cfg), t, t + cfg.windowMs) == 2 * Limit(cfg) - 1
  {
    if cfg.maxRequests >= 1 {
      requests, t := FullBurst(cfg);
    } else {
      requests, t := [0], 0;
      assert Admissions(None, [0], cfg) == [0];
      BetweenAppend([], 0, 0, cfg.windowMs);
    }
  }

  /** One request early, the rest of the limit late, and a full limit right after. */
  lemma FullBurst(cfg: Config) returns (requests: seq<int>, t: int)
    requires cfg.windowMs > 1 && cfg.maxRequests >= 1
    ensures Between(Admissions(None, requests, cfg), t, t + cfg.windowMs) == 2 * cfg.maxRequests - 1
  {
    hide Repeat, Since, Admissions;
    var w, m := cfg.windowMs, cfg.maxRequests;
    var late, next := Repeat(w - 1, m - 1), Repeat(w, m - 1);
    t := w - 1;
    requests := [0] + (late + ([w] + next));
    TwoBursts(cfg);
    assert requests == (([0] + late) + [w]) + next;
    BetweenRepeat([0], w - 1, m - 1, t, t + w);
    BetweenAppend([0] + late, w, t, t + w);
    BetweenRepeat(([0] + late) + [w], w, m - 1, t, t + w);
  }

  // ---- cleanup changes no decision

  function Outcomes(store: Store, events: seq<Event>, cfg: Config): seq<Outcome>
    decreases |events|
  {
    if events == [] then []
    else
      var (after, out) := Handle(store, events[0], cfg);
      out + Outcomes(after, events[1..], cfg)
  }

  function WithoutCleanUps(events: seq<Event>): seq<Event> {
    if events == [] then []
    else (if events[0].CleanUp? then [] else [events[0]]) + WithoutCleanUps(events[1..])
  }

  predicate Monotone(events: seq<Event>, from: int) {
    events == [] || (from <= events[0].now && Monotone(events[1..], events[0].now))
  }

  /** The stores agree on every entry that is still fresh at `now`. */
  ghost predicate Agree(a: Store, b: Store, now: int, cfg: Config) {
    forall w :: FreshPart(a, w, now, cfg) == FreshPart(b, w, now, cfg)
  }

  function FreshPart(store: Store, wallet: string, now: int, cfg: Config): Option<Entry> {
    if wallet in store && !Stale(store[wallet], now, cfg) then Some(store[wallet]) else None
  }

  lemma RequestKeepsAgreement(a: Store, b: Store, event: Event, now: int, cfg: Config)
    requires Agree(a, b, now, cfg) && event.Request? && now <= event.now
    ensures Handle(a, event, cfg).1 == Handle(b, event, cfg).1
    ensures Agree(Handle(a, event, cfg).0, Handle(b, event, cfg).0, event.now, cfg)
  {
    forall w ensures FreshPart(a, w, event.now, cfg) == FreshPart(b, w, event.now, cfg) {
      assert FreshPart(a, w, now, cfg) == FreshPart(b, w, now, cfg);
    }
    if Authenticated(event.wallet) {
      var key := event.wallet.value;
      assert FreshPart(a, key, event.now, cfg) == FreshPart(b, key, event.now, cfg);
      assert Decide(Lookup(a, key), event.now, cfg) == Decide(Lookup(b, key), event.now, cfg);
      var entry := Decide(Lookup(a, key), event.now, cfg).0.value;
      var a', b' := a[key := entry], b[key := entry];
      forall w ensures FreshPart(a', w, event.now, cfg) == FreshPart(b', w, event.now, cfg) {
        assert FreshPart(a, w, event.now, cfg) == FreshPart(b, w, event.now, cfg);
      }
    }
  }

  lemma CleanUpKeepsAgreement(a: Store, b: Store, at: int, now: int, cfg: Config)
    requires Agree(a, b, now, cfg) && now <= at
    ensures Agree(CleanStore(a, at, cfg), b, at, cfg)
  {
    forall w ensures FreshPart(CleanStore(a, at, cfg), w, at, cfg) == FreshPart(b, w, at, cfg) {
      assert FreshPart(a, w, now, cfg) == FreshPart(b, w, now, cfg);
    }
  }

  /** Running the cleanup at any moments leaves every decision unchanged. */
  lemma {:induction false} CleanUpIsInvisible(a: Store, b: Store, events: seq<Event>, now: int, cfg: Config)
    requires Agree(a, b, now, cfg) && Monotone(events, now)
    ensures Outcomes(a, events, cfg) == Outcomes(b, WithoutCleanUps(events), cfg)
    decreases |events|
  {
    if events != [] {
      var e, rest := events[0], WithoutCleanUps(events[1..]);
      if e.CleanUp? {
        CleanUpKeepsAgreement(a, b, e.now, now, cfg);
        CleanUpIsInvisible(CleanStore(a, e.now, cfg), b, events[1..], e.now, cfg);
        assert WithoutCleanUps(events) == [] + rest == rest;
      } else {
        RequestKeepsAgreement(a, b, e, now, cfg);
        CleanUpIsInvisible(Handle(a, e, cfg).0, Handle(b, e, cfg).0, events[1..], e.now, cfg);
        assert WithoutCleanUps(events) == [e] + rest && ([e] + rest)[1..] == rest;
      }
    }
  }

  predicate IsFrom(sender: Option<string>, wallet: string) {
    Authenticated(sender) && sender.value == wallet
  }

  /** A wallet's entry is what its own requests alone make of it. */
  function RequestsOf(events: seq<Event>, wallet: string): seq<int> {
    if events == [] then []
    else (if events[0].Request? && IsFrom(events[0].wallet, wallet) then [events[0].now] else [])
         + RequestsOf(events[1..], wallet)
  }

  /** The admissions of one wallet in a run of everybody's requests. */
  function AdmissionsOf(store: Store, events: seq<Event>, wallet: string, cfg: Config): seq<int>
    decreases |events|
  {
    if events == [] then []
    else
      var (after, out) := Handle(store, events[0], cfg);
      (if events[0].Request? && IsFrom(events[0].wallet, wallet) && out == [Admitted] then [events[0].now] else [])
      + AdmissionsOf(after, events[1..], wallet, cfg)
  }

  lemma {:induction false} WalletsAreIndependent(store: Store, events: seq<Event>, wallet: string, cfg: Config, now: int)
    requires Monotone(events, now) && forall e <- events :: e.Request?
    ensures AdmissionsOf(store, events, wallet, cfg) == Admissions(Lookup(store, wallet), RequestsOf(events, wallet), cfg)
    ensures forall from :: from <= now ==> Ascending(RequestsOf(events, wallet), from)
    decreases |events|
  {
    if events != [] {
      var e := events[0];
      assert e in events;
      var after := Handle(store, e, cfg).0;
      WalletsAreIndependent(after, events[1..], wallet, cfg, e.now);
      var rest := RequestsOf(events[1..], wallet);
      if IsFrom(e.wallet, wallet) {
        assert ([e.now] + rest)[1..] == rest && Ascending(rest, e.now);
      } else {
        assert [] + rest == rest;
        assert Lookup(after, wallet) == Lookup(store, wallet);
      }
    }
  }

  lemma {:induction false} WithoutCleanUpsIsARun(events: seq<Event>, from: int)
    requires Monotone(events, from)
    ensures forall e <- WithoutCleanUps(events) :: e.Request?
    ensures forall earlier :: earlier <= from ==> Monotone(WithoutCleanUps(events), earlier)
    decreases |events|
  {
    if events != [] {
      var e, rest := events[0], WithoutCleanUps(events[1..]);
      WithoutCleanUpsIsARun(events[1..], e.now);
      if e.CleanUp? {
        assert WithoutCleanUps(events) == [] + rest == rest;
      } else {
        assert WithoutCleanUps(events) == [e] + rest && ([e] + rest)[1..] == rest;
      }
    }
  }

  /** Cleanups admit nothing more and nothing less. */
  lemma {:induction false} CleanUpsChangeNoAdmission(
      a: Store, b: Store, events: seq<Event>, wallet: string, now: int, cfg: Config)
    requires Agree(a, b, now, cfg) && Monotone(events, now)
    ensures AdmissionsOf(a, events, wallet, cfg) == AdmissionsOf(b, WithoutCleanUps(events), wallet, cfg)
    decreases |events|
  {
    hide Agree, Decide, CleanStore;
    if events != [] {
      var e, rest := events[0], WithoutCleanUps(events[1..]);
      if e.CleanUp? {
        CleanUpKeepsAgreement(a, b, e.now, now, cfg);
        var after := CleanStore(a, e.now, cfg);
        CleanUpsChangeNoAdmission(after, b, events[1..], wallet, e.now, cfg);
        assert WithoutCleanUps(events) == [] + rest == rest;
        var all := AdmissionsOf(after, events[1..], wallet, cfg);
        assert [] + all == all;
      } else {
        RequestKeepsAgreement(a, b, e, now, cfg);
        CleanUpsChangeNoAdmission(Handle(a, e, cfg).0, Handle(b, e, cfg).0, events[1..], wallet, e.now, cfg);
        assert WithoutCleanUps(events) == [e] + rest && ([e] + rest)[1..] == rest;
      }
    }
  }

  /** The bound, for each wallet in a run of all wallets' requests and the limiter's own cleanups. */
  lemma EveryWalletIsBounded(events: seq<Event>, start: int, wallet: string, cfg: Config, t: int)
    requires cfg.windowMs > 0 && Monotone(events, start)
    ensures Between(AdmissionsOf(map[], events, wallet, cfg), t, t + cfg.windowMs) <= 2 * Limit(cfg) - 1
  {
    hide AdmissionsOf, WithoutCleanUps, Between;
    var requests := WithoutCleanUps(events);
    CleanUpsChangeNoAdmission(map[], map[], events, wallet, start, cfg);
    WithoutCleanUpsIsARun(events, start);
    WalletsAreIndependent(map[], requests, wallet, cfg, start);
    AtMostTwiceTheLimitLessOne(RequestsOf(requests, wallet), start, cfg, t);
  }
}
