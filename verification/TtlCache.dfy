/**
  The in-process part of the TTL cache.  A JavaScript Map is its entries and the
  order of its keys, which the cache uses as recency order: oldest first.  Times
  are in milliseconds.
 */
module TtlCacheModel {
  import opened Wrappers
  import opened Shared

  datatype Entry<V> = Entry(value: V, expiresAt: int)

  datatype Cache<V> = Cache(order: seq<string>, memory: map<string, Entry<V>>)

  ghost predicate WellFormed<V>(c: Cache<V>) {
    NoRepeats(c.order) && forall k :: k in c.order <==> k in c.memory
  }

  function Keep(order: seq<string>, keys: set<string>): (kept: seq<string>)
    ensures forall k :: k in kept <==> k in order && k in keys
    ensures NoRepeats(order) ==> NoRepeats(kept)
    ensures |kept| <= |order|
  {
    if order == [] then []
    else (if order[0] in keys then [order[0]] else []) + Keep(order[1..], keys)
  }

  function Drop<V>(c: Cache<V>, keys: set<string>): (d: Cache<V>)
    ensures WellFormed(c) ==> WellFormed(d)
  {
    Cache(Keep(c.order, c.memory.Keys - keys), c.memory - keys)
  }

  /** Map.delete then Map.set: the key moves to the end. */
  function Put<V>(c: Cache<V>, key: string, entry: Entry<V>): (d: Cache<V>)
    ensures WellFormed(c) ==> WellFormed(d)
  {
    var rest := Drop(c, {key});
    Cache(rest.order + [key], rest.memory[key := entry])
  }

  function Expired<V>(memory: map<string, Entry<V>>, now: int): set<string> {
    set k <- memory | now > memory[k].expiresAt
  }

  function Prune<V>(c: Cache<V>, now: int): Cache<V> {
    Drop(c, Expired(c.memory, now))
  }

  /** Evicts the first key of the map while there are more than `max`. */
  function Evict<V>(c: Cache<V>, max: nat): (d: Cache<V>)
    requires WellFormed(c)
    ensures WellFormed(d)
    ensures |d.order| == if |c.order| > max then max else |c.order|
    ensures forall k <- d.memory :: k in c.memory && d.memory[k] == c.memory[k]
    decreases |c.order|
  {
    if |c.order| > max then
      DropsExactlyOne(c.order, c.memory.Keys);
      Evict(Drop(c, {c.order[0]}), max)
    else c
  }

  function SetTo<V>(c: Cache<V>, key: string, value: V, ttl: int, wrote: int, pruned: int, max: nat): Cache<V>
    requires WellFormed(c)
  {
    Evict(Prune(Put(c, key, Entry(value, wrote + ttl)), pruned), max)
  }

  function Hit<V>(memory: map<string, Entry<V>>, key: string, now: int): Option<V> {
    if key in memory && now <= memory[key].expiresAt then Some(memory[key].value) else None
  }

  /** A hit is re-inserted at the end, an expired entry is dropped. */
  function GetFrom<V>(c: Cache<V>, key: string, now: int): Cache<V> {
    if key !in c.memory then c
    else if now > c.memory[key].expiresAt then Drop(c, {key})
    else Put(c, key, c.memory[key])
  }

  function WithPrefix(keys: set<string>, prefix: string): set<string> {
    set k <- keys | prefix <= k
  }

  // ---- lemmas on the key order

  lemma {:induction false} KeepAll(order: seq<string>, keys: set<string>)
    requires forall k <- order :: k in keys
    ensures Keep(order, keys) == order
  {
    if order != [] {
      KeepAll(order[1..], keys);
    }
  }

  lemma {:induction false} KeepKeep(order: seq<string>, a: set<string>, b: set<string>)
    ensures Keep(Keep(order, a), b) == Keep(order, a * b)
  {
    if order != [] {
      var kept, rest := Keep(order, a), Keep(order[1..], a);
      KeepKeep(order[1..], a, b);
      if order[0] in a {
        assert kept == [order[0]] + rest && kept[1..] == rest;
      } else {
        assert kept == [] + rest == rest;
        assert Keep(order, a * b) == [] + Keep(order[1..], a * b);
      }
    }
  }

  lemma DropsExactlyOne(order: seq<string>, keys: set<string>)
    requires NoRepeats(order) && order != [] && forall k :: k in order <==> k in keys
    ensures Keep(order, keys - {order[0]}) == order[1..]
  {
    KeepAll(order[1..], keys - {order[0]});
  }

  lemma DropDrop<V>(c: Cache<V>, a: set<string>, b: set<string>)
    ensures Drop(Drop(c, a), b) == Drop(c, a + b)
  {
    var ka, kb := c.memory.Keys - a, (c.memory - a).Keys - b;
    KeepKeep(c.order, ka, kb);
    assert ka * kb == c.memory.Keys - (a + b);
    assert (c.memory - a) - b == c.memory - (a + b);
  }

  lemma {:induction false} DistinctLength(order: seq<string>, keys: set<string>)
    requires NoRepeats(order) && forall k <- order :: k in keys
    ensures |order| <= |keys|
    ensures (forall k <- keys :: k in order) ==> |order| == |keys|
    decreases |order|
  {
    if order != [] {
      assert order[0] !in order[1..];
      DistinctLength(order[1..], keys - {order[0]});
    } else if keys != {} {
      var k :| k in keys;
    }
  }
}

/** The cache as the object the source writes. */
module TtlCache {
  import opened Wrappers
  import opened Shared
  import opened TtlCacheModel

  const DEFAULT_MAX_ENTRIES := 5000

  /** Between a second and a minute, and otherwise the TTL. */
  function DefaultSweepIntervalMs(ttlMs: int): (interval: nat)
    ensures 1000 <= interval <= 60000
    ensures 1000 <= ttlMs <= 60000 ==> interval == ttlMs
  {
    if ttlMs < 1000 then 1000 else if ttlMs < 60000 then ttlMs else 60000
  }

  class TtlCache<V> {
    const maxEntries: nat
    const enabled: bool
    /** Zero means that no sweeper is started. */
    const sweepIntervalMs: nat
    var order: seq<string>
    var memory: map<string, Entry<V>>

    ghost function Abs(): Cache<V>
      reads this
    {
      Cache(order, memory)
    }

    ghost predicate Valid()
      reads this
    {
      WellFormed(Abs())
    }

    constructor (maxEntries: nat, enabled: bool, sweepIntervalMs: nat)
      requires maxEntries > 0
      ensures Valid() && Abs() == Cache([], map[])
      ensures this.maxEntries == maxEntries && this.enabled == enabled && this.sweepIntervalMs == sweepIntervalMs
    {
      this.maxEntries, this.enabled, this.sweepIntervalMs := maxEntries, enabled, sweepIntervalMs;
      order, memory := [], map[];
    }

    /** Map.delete. */
    method MapDelete(key: string)
      modifies this
      ensures Abs() == Drop(old(Abs()), {key})
    {
      order := Keep(order, memory.Keys - {key});
      memory := memory - {key};
    }

    method Get(key: string, now: int) returns (value: Option<V>)
      requires Valid()
      modifies this
      ensures Valid()
      ensures enabled ==> Abs() == GetFrom(old(Abs()), key, now) && value == Hit(old(memory), key, now)
      ensures !enabled ==> Abs() == old(Abs()) && value == None
      ensures value == if enabled && key in old(memory) && now <= old(memory)[key].expiresAt
                       then Some(old(memory)[key].value) else None
      ensures value.Some? ==> order != [] && order[|order| - 1] == key && memory == old(memory)
      ensures value.None? ==> memory == (if enabled then old(memory) - {key} else old(memory))
    {
      if !enabled || key !in memory {
        return None;
      }
      var entry := memory[key];
      if now > entry.expiresAt {
        MapDelete(key);
        return None;
      }
      MapDelete(key);
      order, memory := order + [key], memory[key := entry];
      return Some(entry.value);
    }

    /** `wrote` and `pruned` are the two clock readings of the source. */
    method Set(key: string, value: V, ttl: int, wrote: int, pruned: int)
      requires Valid()
      modifies this
      ensures Valid()
      ensures Abs() == if enabled then SetTo(old(Abs()), key, value, ttl, wrote, pruned, maxEntries) else old(Abs())
    {
      if !enabled {
        return;
      }
      MapDelete(key);
      order, memory := order + [key], memory[key := Entry(value, wrote + ttl)];
      var _ := PruneExpired(pruned);
      EvictToCapacity();
    }

    method Delete(key: string)
      requires Valid()
      modifies this
      ensures Valid()
      ensures Abs() == if enabled then Drop(old(Abs()), {key}) else old(Abs())
      ensures memory == if enabled then old(memory) - {key} else old(memory)
    {
      if enabled {
        MapDelete(key);
      }
    }

    /** Iterates the map while deleting from it: a deleted key is not visited again. */
    method InvalidatePrefix(prefix: string)
      requires Valid()
      modifies this
      ensures Valid()
      ensures Abs() == Drop(old(Abs()), WithPrefix(old(memory).Keys, prefix))
      ensures memory == map k <- old(memory) | !(prefix <= k) :: old(memory)[k]
    {
      hide Keep, NoRepeats;
      ghost var doomed := WithPrefix(memory.Keys, prefix);
      ghost var gone: set<string> := {};
      var visit, i := order, 0;
      DropNothing();
      while i < |visit|
        invariant 0 <= i <= |visit| && gone <= doomed
        invariant Valid() && Abs() == Drop(old(Abs()), gone)
        invariant forall j :: 0 <= j < i ==> visit[j] in gone || visit[j] !in doomed
      {
        if prefix <= visit[i] {
          DropDrop(old(Abs()), gone, {visit[i]});
          MapDelete(visit[i]);
          gone := gone + {visit[i]};
        }
        i := i + 1;
      }
      assert forall k <- doomed :: k in visit;
      assert gone == doomed;
    }

    method PruneExpired(now: int) returns (removed: nat)
      requires Valid()
      modifies this
      ensures Valid()
      ensures Abs() == Prune(old(Abs()), now)
      ensures memory == map k <- old(memory) | now <= old(memory)[k].expiresAt :: old(memory)[k]
      ensures removed == |set k <- old(memory) | now > old(memory)[k].expiresAt|
    {
      hide Keep;
      ghost var doomed := Expired(memory, now);
      ghost var gone: set<string> := {};
      var visit, i := order, 0;
      removed := 0;
      DropNothing();
      while i < |visit|
        invariant 0 <= i <= |visit| && gone <= doomed && removed == |gone|
        invariant Abs() == Drop(old(Abs()), gone)
        invariant forall j :: 0 <= j < i ==> visit[j] in gone || visit[j] !in doomed
        invariant forall j :: i <= j < |visit| ==> visit[j] !in gone
      {
        if now > memory[visit[i]].expiresAt {
          DropDrop(old(Abs()), gone, {visit[i]});
          MapDelete(visit[i]);
          gone := gone + {visit[i]};
          removed := removed + 1;
        }
        i := i + 1;
      }
      assert forall k <- doomed :: k in visit;
      assert gone == doomed;
    }

    method EvictToCapacity()
      requires Valid()
      modifies this
      ensures Valid() && |order| <= maxEntries
      ensures Abs() == Evict(old(Abs()), maxEntries)
    {
      while |order| > maxEntries
        invariant Valid() && Evict(Abs(), maxEntries) == Evict(old(Abs()), maxEntries)
        decreases |order|
      {
        DropsExactlyOne(order, memory.Keys);
        MapDelete(order[0]);
      }
    }

    method Clear()
      modifies this
      ensures Valid() && Abs() == Cache([], map[])
    {
      order, memory := [], map[];
    }

    /** The checks of the source's constructor; a missing capacity or sweep interval gets its default. */
    static method Create(ttlMs: int, maxEntries: Option<int>, enabled: bool, sweepIntervalMs: Option<int>)
        returns (r: Result<TtlCache<V>, string>)
      ensures r.Ok? <==>
                && ttlMs > 0
                && (maxEntries.None? || maxEntries.value > 0)
                && (sweepIntervalMs.None? || sweepIntervalMs.value >= 0)
      ensures r.Ok? ==> fresh(r.value) && r.value.Valid() && r.value.Abs() == Cache([], map[])
      ensures r.Ok? ==>
                && r.value.enabled == enabled
                && r.value.maxEntries == (if maxEntries.None? then 5000 else maxEntries.value)
                && r.value.sweepIntervalMs ==
                     if sweepIntervalMs.None? then DefaultSweepIntervalMs(ttlMs) else sweepIntervalMs.value
    {
      if ttlMs <= 0 {
        return Err("TtlCache requires a positive ttlSeconds.");
      }
      var max := if maxEntries.None? then DEFAULT_MAX_ENTRIES else maxEntries.value;
      if max <= 0 {
        return Err("TtlCache requires a positive integer maxEntries.");
      }
      var interval := if sweepIntervalMs.None? then DefaultSweepIntervalMs(ttlMs) else sweepIntervalMs.value;
      if interval < 0 {
        return Err("TtlCache requires a non-negative sweepIntervalMs.");
      }
      var cache := new TtlCache(max, enabled, interval);
      return Ok(cache);
    }

    lemma DropNothing()
      requires Valid()
      ensures Abs() == Drop(Abs(), {})
    {
      KeepAll(order, memory.Keys - {});
      assert memory - {} == memory;
    }
  }
}
