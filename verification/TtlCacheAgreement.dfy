/**
  What the bounded cache promises against an unbounded map of timestamped values:
  it never invents or confuses values, it loses nothing while the live entries
  fit, and it never drops a key that fewer than `maxEntries` others followed.
 */
module TtlCacheAgreement {
  import opened Wrappers
  import opened Shared
  import opened TtlCacheModel

  datatype Action<V> =
    | Get(key: string, now: int)
    | Set(key: string, value: V, ttl: int, wrote: int, pruned: int)
    | Delete(key: string)
    | InvalidatePrefix(prefix: string)
    | PruneExpired(now: int)
    | Clear

  function Next<V>(c: Cache<V>, a: Action<V>, max: nat): Cache<V>
    requires WellFormed(c)
  {
    match a
    case Get(key, now) => GetFrom(c, key, now)
    case Set(key, value, ttl, wrote, pruned) => SetTo(c, key, value, ttl, wrote, pruned, max)
    case Delete(key) => Drop(c, {key})
    case InvalidatePrefix(prefix) => Drop(c, WithPrefix(c.memory.Keys, prefix))
    case PruneExpired(now) => Prune(c, now)
    case Clear => Cache([], map[])
  }

  lemma NextIsWellFormed<V>(c: Cache<V>, a: Action<V>, max: nat)
    requires WellFormed(c)
    ensures WellFormed(Next(c, a, max))
    ensures |c.order| <= max ==> |Next(c, a, max).order| <= max
  {
    match a
    case Get(key, now) =>
      if key in c.memory {
        assert Keep(c.order, c.memory.Keys - {key}) == Drop(c, {key}).order;
        DistinctLength(c.order, c.memory.Keys);
        DistinctLength(Drop(c, {key}).order, c.memory.Keys - {key});
      }
    case _ =>
  }

  /** The unbounded map: nothing is ever evicted or pruned from it. */
  type Reference<V> = map<string, Entry<V>>

  function RefNext<V>(r: Reference<V>, a: Action<V>): Reference<V> {
    match a
    case Get(_, _) => r
    case Set(key, value, ttl, wrote, _) => r[key := Entry(value, wrote + ttl)]
    case Delete(key) => r - {key}
    case InvalidatePrefix(prefix) => map k <- r | !(prefix <= k) :: r[k]
    case PruneExpired(_) => r
    case Clear => map[]
  }

  function Gets<V>(c: Cache<V>, run: seq<Action<V>>, max: nat): seq<Option<V>>
    requires WellFormed(c)
    decreases |run|
  {
    if run == [] then []
    else
      NextIsWellFormed(c, run[0], max);
      (if run[0].Get? then [Hit(c.memory, run[0].key, run[0].now)] else []) + Gets(Next(c, run[0], max), run[1..], max)
  }

  /** A value is found until its expiry, that moment included. */
  function RefGet<V>(r: Reference<V>, key: string, now: int): Option<V> {
    if key in r && now <= r[key].expiresAt then Some(r[key].value) else None
  }

  function RefGets<V>(r: Reference<V>, run: seq<Action<V>>): seq<Option<V>>
    decreases |run|
  {
    if run == [] then []
    else (if run[0].Get? then [RefGet(r, run[0].key, run[0].now)] else []) + RefGets(RefNext(r, run[0]), run[1..])
  }

  // ---- the cache never disagrees

  ghost predicate Sub<V>(c: Cache<V>, r: Reference<V>) {
    forall k <- c.memory :: k in r && r[k] == c.memory[k]
  }

  lemma NextKeepsSub<V>(c: Cache<V>, r: Reference<V>, a: Action<V>, max: nat)
    requires WellFormed(c) && Sub(c, r)
    ensures Sub(Next(c, a, max), RefNext(r, a))
  {
    hide Keep, WellFormed, Evict;
  }

  /** Whatever the clock does, a `get` is a miss or what the unbounded map would return. */
  lemma {:induction false} GetsNeverDisagree<V>(c: Cache<V>, r: Reference<V>, run: seq<Action<V>>, max: nat)
    requires WellFormed(c) && Sub(c, r)
    ensures |Gets(c, run, max)| == |RefGets(r, run)|
    ensures forall i :: 0 <= i < |Gets(c, run, max)| ==>
              Gets(c, run, max)[i] == None || Gets(c, run, max)[i] == RefGets(r, run)[i]
    decreases |run|
  {
    if run != [] {
      NextIsWellFormed(c, run[0], max);
      NextKeepsSub(c, r, run[0], max);
      GetsNeverDisagree(Next(c, run[0], max), RefNext(r, run[0]), run[1..], max);
    }
  }

  // ---- the cache loses nothing while the live entries fit

  function LiveKeys<V>(r: Reference<V>, now: int): set<string> {
    set k <- r | now <= r[k].expiresAt
  }

  /** Everything live at `now` is cached. */
  ghost predicate Complete<V>(c: Cache<V>, r: Reference<V>, now: int) {
    forall k <- LiveKeys(r, now) :: k in c.memory
  }

  /** The action reads the clock no earlier than `now`; a `set` reads it twice. */
  predicate NotBefore<V>(a: Action<V>, now: int) {
    match a
    case Get(_, at) => now <= at
    case Set(_, _, _, wrote, pruned) => now <= wrote <= pruned
    case PruneExpired(at) => now <= at
    case _ => true
  }

  function LastReading<V>(a: Action<V>, now: int): int {
    match a
    case Get(_, at) => at
    case Set(_, _, _, _, pruned) => pruned
    case PruneExpired(at) => at
    case _ => now
  }

  /** The readings of the whole run do not decrease. */
  ghost predicate Monotone<V>(run: seq<Action<V>>, now: int)
    decreases |run|
  {
    run == [] || (NotBefore(run[0], now) && Monotone(run[1..], LastReading(run[0], now)))
  }

  /** After each `set` the live entries of the unbounded map, the new one included, fit. */
  ghost predicate Fits<V>(r: Reference<V>, run: seq<Action<V>>, max: nat)
    decreases |run|
  {
    run == [] ||
    (var next := RefNext(r, run[0]);
     (run[0].Set? ==> |LiveKeys(next, run[0].pruned)| <= max) && Fits(next, run[1..], max))
  }

  /** After the prune of a `set` the cache holds exactly the live entries. */
  lemma PrunedIsLive<V>(c: Cache<V>, r: Reference<V>, a: Action<V>, before: int)
    requires Sub(c, r) && Complete(c, r, before) && a.Set? && before <= a.wrote <= a.pruned
    ensures Prune(Put(c, a.key, Entry(a.value, a.wrote + a.ttl)), a.pruned).memory.Keys
         == LiveKeys(RefNext(r, a), a.pruned)
  {
    hide Keep;
    var pruned := Prune(Put(c, a.key, Entry(a.value, a.wrote + a.ttl)), a.pruned);
    forall k ensures k in pruned.memory <==> k in LiveKeys(RefNext(r, a), a.pruned) {
      if k != a.key && k in r && a.pruned <= r[k].expiresAt {
        assert k in LiveKeys(r, before);
      }
    }
  }

  lemma SetKeepsComplete<V>(c: Cache<V>, r: Reference<V>, a: Action<V>, max: nat, before: int)
    requires WellFormed(c) && Sub(c, r) && Complete(c, r, before)
    requires a.Set? && before <= a.wrote <= a.pruned
    requires |LiveKeys(RefNext(r, a), a.pruned)| <= max
    ensures Complete(Next(c, a, max), RefNext(r, a), a.pruned)
  {
    hide Keep, Put, LiveKeys, Sub, RefNext;
    var pruned := Prune(Put(c, a.key, Entry(a.value, a.wrote + a.ttl)), a.pruned);
    PrunedIsLive(c, r, a, before);
    DistinctLength(pruned.order, pruned.memory.Keys);
    assert Evict(pruned, max) == pruned;
  }

  lemma NextKeepsComplete<V>(c: Cache<V>, r: Reference<V>, a: Action<V>, max: nat, before: int)
    requires WellFormed(c) && Sub(c, r) && Complete(c, r, before) && NotBefore(a, before)
    requires a.Set? ==> |LiveKeys(RefNext(r, a), a.pruned)| <= max
    ensures Complete(Next(c, a, max), RefNext(r, a), LastReading(a, before))
  {
    hide Keep;
    var after := LastReading(a, before);
    assert forall k <- LiveKeys(r, after) :: k in LiveKeys(r, before);
    match a
    case Set(_, _, _, _, _) => SetKeepsComplete(c, r, a, max, before);
    case _ =>
      var next := RefNext(r, a);
      assert forall k <- LiveKeys(next, after) :: k in LiveKeys(r, after);
  }

  /** On a monotone clock every `get` equals the unbounded map's as long as the live entries fit. */
  lemma {:induction false} GetsAgree<V>(c: Cache<V>, r: Reference<V>, run: seq<Action<V>>, max: nat, now: int)
    requires WellFormed(c) && Sub(c, r) && Complete(c, r, now)
    requires Monotone(run, now) && Fits(r, run, max)
    ensures Gets(c, run, max) == RefGets(r, run)
    decreases |run|
  {
    if run != [] {
      var a := run[0];
      NextIsWellFormed(c, a, max);
      NextKeepsSub(c, r, a, max);
      NextKeepsComplete(c, r, a, max, now);
      GetsAgree(Next(c, a, max), RefNext(r, a), run[1..], max, LastReading(a, now));
      if a.Get? {
        assert a.key in r && a.now <= r[a.key].expiresAt ==> a.key in LiveKeys(r, now);
      }
    }
  }

  /** From the empty cache. */
  lemma CacheIsTheUnboundedMap<V>(run: seq<Action<V>>, max: nat, now: int)
    requires Monotone(run, now) && Fits(map[], run, max)
    ensures Gets(Cache([], map[]), run, max) == RefGets(map[], run)
  {
    GetsAgree(Cache([], map[]), map[], run, max, now);
  }

  lemma {:induction false} SizeIsBounded<V>(c: Cache<V>, run: seq<Action<V>>, max: nat)
    requires WellFormed(c) && |c.order| <= max
    ensures WellFormed(After(c, run, max)) && |After(c, run, max).order| <= max
    decreases |run|
  {
    if run != [] {
      NextIsWellFormed(c, run[0], max);
      SizeIsBounded(Next(c, run[0], max), run[1..], max);
    }
  }

  function After<V>(c: Cache<V>, run: seq<Action<V>>, max: nat): Cache<V>
    requires WellFormed(c)
    decreases |run|
  {
    if run == [] then c
    else
      NextIsWellFormed(c, run[0], max);
      After(Next(c, run[0], max), run[1..], max)
  }

  // ---- LRU retention

  /** `key` is in the order and every later key is in `later`. */
  predicate TailWithin(order: seq<string>, key: string, later: set<string>) {
    order != [] &&
    if order[0] == key then forall k <- order[1..] :: k in later else TailWithin(order[1..], key, later)
  }

  lemma {:induction false} TailAfterKeep(order: seq<string>, keys: set<string>, key: string, later: set<string>)
    requires TailWithin(order, key, later) && key in keys
    ensures TailWithin(Keep(order, keys), key, later)
  {
    var rest := Keep(order[1..], keys);
    if order[0] == key {
      assert Keep(order, keys) == [key] + rest;
    } else {
      TailAfterKeep(order[1..], keys, key, later);
      if order[0] in keys {
        assert Keep(order, keys) == [order[0]] + rest && ([order[0]] + rest)[1..] == rest;
      } else {
        assert Keep(order, keys) == [] + rest == rest;
      }
    }
  }

  lemma {:induction false} TailAfterAppend(order: seq<string>, k: string, key: string, later: set<string>)
    requires TailWithin(order, key, later) && k != key
    ensures TailWithin(order + [k], key, later + {k})
  {
    assert (order + [k])[1..] == order[1..] + [k];
    if order[0] != key {
      TailAfterAppend(order[1..], k, key, later);
    }
  }

  lemma {:induction false} LastIsTail(order: seq<string>, key: string, later: set<string>)
    requires key !in order
    ensures TailWithin(order + [key], key, later)
  {
    if order == [] {
      assert order + [key] == [key];
    } else {
      assert (order + [key])[1..] == order[1..] + [key];
      LastIsTail(order[1..], key, later);
    }
  }

  lemma {:induction false} WiderTail(order: seq<string>, key: string, later: set<string>, wider: set<string>)
    requires TailWithin(order, key, later) && later <= wider
    ensures TailWithin(order, key, wider)
  {
    if order[0] != key {
      WiderTail(order[1..], key, later, wider);
    }
  }

  /** A key that fewer than `max` keys follow survives eviction. */
  lemma {:induction false} TailAfterEvict<V>(c: Cache<V>, max: nat, key: string, later: set<string>)
    requires WellFormed(c) && TailWithin(c.order, key, later) && |later| < max
    ensures TailWithin(Evict(c, max).order, key, later)
    ensures key in Evict(c, max).memory && Evict(c, max).memory[key] == c.memory[key]
    decreases |c.order|
  {
    TailHasKey(c.order, key, later);
    hide Keep;
    if |c.order| > max {
      DropsExactlyOne(c.order, c.memory.Keys);
      if c.order[0] == key {
        DistinctLength(c.order[1..], later);
      }
      assert key in Drop(c, {c.order[0]}).memory;
      TailAfterEvict(Drop(c, {c.order[0]}), max, key, later);
    }
  }

  lemma {:induction false} TailHasKey(order: seq<string>, key: string, later: set<string>)
    requires TailWithin(order, key, later)
    ensures key in order
  {
    if order[0] != key {
      TailHasKey(order[1..], key, later);
    }
  }

  /** Keys the action makes most recent: the key of a `set` or of a hit. */
  function Touched<V>(c: Cache<V>, a: Action<V>): set<string> {
    match a
    case Set(key, _, _, _, _) => {key}
    case Get(key, now) => if Hit(c.memory, key, now).Some? then {key} else {}
    case _ => {}
  }

  function TouchedAll<V>(c: Cache<V>, run: seq<Action<V>>, max: nat): set<string>
    requires WellFormed(c)
    decreases |run|
  {
    if run == [] then {}
    else
      NextIsWellFormed(c, run[0], max);
      Touched(c, run[0]) + TouchedAll(Next(c, run[0], max), run[1..], max)
  }

  /** The action neither removes nor overwrites the key, and happens while its entry is live. */
  predicate Spares<V>(a: Action<V>, key: string, expiresAt: int) {
    match a
    case Get(_, now) => now <= expiresAt
    case Set(k, _, _, _, pruned) => k != key && pruned <= expiresAt
    case Delete(k) => k != key
    case InvalidatePrefix(prefix) => !(prefix <= key)
    case PruneExpired(now) => now <= expiresAt
    case Clear => false
  }

  ghost predicate Retained<V>(c: Cache<V>, key: string, entry: Entry<V>, later: set<string>) {
    WellFormed(c) && TailWithin(c.order, key, later) && key in c.memory && c.memory[key] == entry
  }

  lemma RetainedAfterDrop<V>(c: Cache<V>, keys: set<string>, key: string, entry: Entry<V>, later: set<string>)
    requires Retained(c, key, entry, later) && key !in keys
    ensures Retained(Drop(c, keys), key, entry, later)
  {
    TailAfterKeep(c.order, c.memory.Keys - keys, key, later);
  }

  lemma RetainedAfterPut<V>(
      c: Cache<V>, k: string, put: Entry<V>, key: string, entry: Entry<V>, later: set<string>, all: set<string>)
    requires Retained(c, key, entry, later) && later + {k} <= all + {key} && (k == key ==> put == entry)
    requires later <= all
    ensures Retained(Put(c, k, put), key, entry, all)
  {
    if k == key {
      LastIsTail(Drop(c, {k}).order, key, all);
    } else {
      RetainedAfterDrop(c, {k}, key, entry, later);
      TailAfterAppend(Drop(c, {k}).order, k, key, later);
      WiderTail(Put(c, k, put).order, key, later + {k}, all);
    }
  }

  lemma NextRetains<V>(c: Cache<V>, a: Action<V>, max: nat, key: string, entry: Entry<V>, later: set<string>, all: set<string>)
    requires Retained(c, key, entry, later) && Spares(a, key, entry.expiresAt)
    requires later <= all && Touched(c, a) <= all + {key} && |all| < max
    ensures Retained(Next(c, a, max), key, entry, all)
  {
    hide Keep, TailWithin, Evict, WellFormed, Drop;
    WiderTail(c.order, key, later, all);
    match a
    case Get(k, now) =>
      if k in c.memory {
        if now > c.memory[k].expiresAt {
          RetainedAfterDrop(c, {k}, key, entry, all);
        } else {
          RetainedAfterPut(c, k, c.memory[k], key, entry, later, all);
        }
      }
    case Set(k, value, ttl, wrote, pruned) =>
      var put := Put(c, k, Entry(value, wrote + ttl));
      RetainedAfterPut(c, k, Entry(value, wrote + ttl), key, entry, later, all);
      RetainedAfterDrop(put, Expired(put.memory, pruned), key, entry, all);
      TailAfterEvict(Prune(put, pruned), max, key, all);
    case Delete(k) => RetainedAfterDrop(c, {k}, key, entry, all);
    case InvalidatePrefix(prefix) => RetainedAfterDrop(c, WithPrefix(c.memory.Keys, prefix), key, entry, all);
    case PruneExpired(now) => RetainedAfterDrop(c, Expired(c.memory, now), key, entry, all);
    case Clear =>
  }

  lemma {:induction false} RunRetains<V>(
      c: Cache<V>, run: seq<Action<V>>, max: nat, key: string, entry: Entry<V>, later: set<string>)
    requires Retained(c, key, entry, later) && key !in later
    requires forall a <- run :: Spares(a, key, entry.expiresAt)
    requires |later + TouchedAll(c, run, max) - {key}| < max
    ensures Retained(After(c, run, max), key, entry, later + TouchedAll(c, run, max) - {key})
    decreases |run|
  {
    if run == [] {
      WiderTail(c.order, key, later, later + {} - {key});
    } else {
      var a := run[0];
      assert a in run;
      NextIsWellFormed(c, a, max);
      var next, rest := Next(c, a, max), TouchedAll(Next(c, a, max), run[1..], max);
      var all := later + Touched(c, a) - {key};
      assert all <= later + TouchedAll(c, run, max) - {key};
      SubsetSize(all, later + TouchedAll(c, run, max) - {key});
      NextRetains(c, a, max, key, entry, later, all);
      assert all + rest - {key} == later + TouchedAll(c, run, max) - {key};
      RunRetains(next, run[1..], max, key, entry, all);
    }
  }

  lemma SubsetSize(a: set<string>, b: set<string>)
    requires a <= b
    ensures |a| <= |b|
  {
    assert |b| == |a| + |b - a| by {
      assert b == a + (b - a);
    }
  }

  /**
    LRU retention: after a `set`, the key is still found by every live `get` as long
    as at most `max - 1` distinct other keys have been set or hit in between.
   */
  lemma LruRetention<V>(
      c: Cache<V>, key: string, value: V, ttl: int, wrote: int, pruned: int, run: seq<Action<V>>, max: nat, now: int)
    requires WellFormed(c) && pruned <= wrote + ttl && now <= wrote + ttl
    requires forall a <- run :: Spares(a, key, wrote + ttl)
    requires |TouchedAll(SetTo(c, key, value, ttl, wrote, pruned, max), run, max) - {key}| < max
    ensures Hit(After(SetTo(c, key, value, ttl, wrote, pruned, max), run, max).memory, key, now) == Some(value)
  {
    hide Keep, TailWithin, Evict, Next;
    var entry := Entry(value, wrote + ttl);
    var put := Put(c, key, entry);
    LastIsTail(Drop(c, {key}).order, key, {});
    RetainedAfterDrop(put, Expired(put.memory, pruned), key, entry, {});
    TailAfterEvict(Prune(put, pruned), max, key, {});
    var set_ := SetTo(c, key, value, ttl, wrote, pruned, max);
    assert {} + TouchedAll(set_, run, max) - {key} == TouchedAll(set_, run, max) - {key};
    RunRetains(set_, run, max, key, entry, {});
  }

  /** The same after a hit. */
  lemma LruRetentionAfterHit<V>(c: Cache<V>, key: string, at: int, run: seq<Action<V>>, max: nat, now: int)
    requires WellFormed(c) && max > 0 && key in c.memory
    requires at <= c.memory[key].expiresAt && now <= c.memory[key].expiresAt
    requires forall a <- run :: Spares(a, key, c.memory[key].expiresAt)
    requires |TouchedAll(GetFrom(c, key, at), run, max) - {key}| < max
    ensures Hit(After(GetFrom(c, key, at), run, max).memory, key, now) == Some(c.memory[key].value)
  {
    hide Keep, TailWithin, Next;
    LastIsTail(Drop(c, {key}).order, key, {});
    var hit := GetFrom(c, key, at);
    assert {} + TouchedAll(hit, run, max) - {key} == TouchedAll(hit, run, max) - {key};
    RunRetains(hit, run, max, key, c.memory[key], {});
  }
}
