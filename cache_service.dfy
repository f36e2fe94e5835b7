/** The in-process TTL cache as an object whose table and counters are
    updated in place. Every method is proved against the matching step
    function of module CacheModel; the current time, which the original
    reads from the system clock, is the parameter `now`. */
module Cache {
  import opened Wrappers
  import opened CacheModel

  class CacheService<V> {
    var cache: Table<V>
    /** The source field `this.defaultTTL`, never reassigned; `Set` falls
        back to it when the ttl argument is omitted. */
    const defaultTTL: int := DefaultTTL
    var hitCount: nat
    var missCount: nat

    /** The state of this object as a value of the model. */
    ghost function State(): CacheState<V>
      reads this
    {
      CacheState(cache, hitCount, missCount)
    }

    /** A fresh cache: empty, both counters zero, default ttl five minutes. */
    constructor ()
      ensures State() == CacheState(map[], 0, 0)
      ensures defaultTTL == 300000
    {
      cache := map[];
      hitCount := 0;
      missCount := 0;
    }

    /** Stores `data` under `key` at time `now`; `ttl == None` stands for an
        omitted argument and means `defaultTTL`. */
    method Set(key: string, data: V, ttl: Option<int>, now: int)
      modifies this
      ensures State() == SetOp(old(State()), key, data, ttl, now)
      ensures cache[key] == Entry(data, now, if ttl.Some? then ttl.value else defaultTTL)
    {
      var t := if ttl.Some? then ttl.value else defaultTTL;
      cache := cache[key := Entry(data, now, t)];
    }

    /** Looks `key` up at time `now`, evicting it if it has expired, and
        counts the access as a hit or a miss. */
    method Get(key: string, now: int) returns (r: Option<V>)
      modifies this
      ensures (State(), r) == GetOp(old(State()), key, now)
      ensures r.Some? <==> key in Live(old(cache), now)
      ensures hitCount + missCount == old(hitCount) + old(missCount) + 1
    {
      if key !in cache {
        missCount := missCount + 1;
        return None;
      }
      var item := cache[key];
      var isExpired := now - item.timestamp > item.ttl;
      if isExpired {
        cache := cache - {key};
        missCount := missCount + 1;
        return None;
      }
      hitCount := hitCount + 1;
      return Some(item.data);
    }

    /** Removes `key`, reporting whether it was in the table. */
    method Delete(key: string) returns (removed: bool)
      modifies this
      ensures (State(), removed) == DeleteOp(old(State()), key)
      ensures removed <==> key in old(cache)
    {
      removed := key in cache;
      cache := cache - {key};
    }

    /** Empties the table and resets both counters. */
    method Clear()
      modifies this
      ensures State() == ClearOp(old(State()))
      ensures cache == map[] && hitCount == 0 && missCount == 0
    {
      cache := map[];
      hitCount := 0;
      missCount := 0;
    }

    /** Whether `key` holds a live entry at time `now`; an expired entry is
        evicted on the way. The counters are not touched. */
    method Has(key: string, now: int) returns (b: bool)
      modifies this
      ensures (State(), b) == HasOp(old(State()), key, now)
      ensures b <==> key in Live(old(cache), now)
      ensures hitCount == old(hitCount) && missCount == old(missCount)
    {
      if key !in cache {
        return false;
      }
      var item := cache[key];
      var isExpired := now - item.timestamp > item.ttl;
      if isExpired {
        cache := cache - {key};
        return false;
      }
      return true;
    }

    /** Walks the table once and deletes every entry expired at `now`. */
    method Cleanup(now: int)
      modifies this
      ensures State() == CleanupOp(old(State()), now)
      ensures Live(cache, now) == Live(old(cache), now)
    {
      var pending := cache.Keys;
      while pending != {}
        invariant pending <= old(cache).Keys
        invariant forall k :: k in cache <==> k in old(cache) && (k in pending || !Expired(old(cache)[k], now))
        invariant forall k :: k in cache ==> cache[k] == old(cache)[k]
        invariant hitCount == old(hitCount) && missCount == old(missCount)
        decreases pending
      {
        var key :| key in pending;
        if now - cache[key].timestamp > cache[key].ttl {
          cache := cache - {key};
        }
        pending := pending - {key};
      }
    }

    /** The raw number of entries, expired ones not yet removed included. */
    function GetSize(): (n: nat)
      reads this
      ensures n == |cache.Keys|
      ensures n == 0 <==> cache == map[]
    {
      |cache|
    }

    /** Every key of the table, once each, expired ones not yet removed
        included; the order is not specified. */
    method GetKeys() returns (keys: seq<string>)
      ensures forall k :: k in keys <==> k in cache
      ensures forall i, j :: 0 <= i < j < |keys| ==> keys[i] != keys[j]
      ensures |keys| == GetSize()
    {
      keys := [];
      var pending := cache.Keys;
      while pending != {}
        invariant pending <= cache.Keys
        invariant forall k :: k in keys <==> k in cache && k !in pending
        invariant forall i, j :: 0 <= i < j < |keys| ==> keys[i] != keys[j]
        invariant |keys| + |pending| == |cache.Keys|
        decreases pending
      {
        var key :| key in pending;
        keys := keys + [key];
        pending := pending - {key};
      }
    }
  }
}
