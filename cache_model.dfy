/** The cache's behaviour as pure functions over a snapshot of its state.
    Each operation of the cache service is one step function from the state
    before the call (and the call's arguments, including the current time)
    to the state after it and the call's result. The class in module Cache
    is proved against these functions; the lemmas here say what they mean. */
module CacheModel {
  import opened Wrappers

  /** The default time-to-live of an entry: five minutes, in milliseconds. */
  const DefaultTTL: int := 5 * 60 * 1000

  /** One table entry: the stored value, the time it was stored and its
      time-to-live, both in milliseconds. */
  datatype Entry<V> = Entry(data: V, timestamp: int, ttl: int)

  type Table<V> = map<string, Entry<V>>

  /** The whole observable state: the table and the two access counters. */
  datatype CacheState<V> = CacheState(table: Table<V>, hits: nat, misses: nat)

  /** An entry is expired at `now` when strictly more than its ttl has
      elapsed since it was stored; at exactly `ttl` it is still live. Put
      as a deadline: the entry dies once `now` passes `timestamp + ttl`, so
      at the instant it is stored it is expired only with a negative ttl. */
  predicate Expired<V>(e: Entry<V>, now: int)
    ensures Expired(e, now) <==> e.timestamp + e.ttl < now
    ensures now == e.timestamp ==> (Expired(e, now) <==> e.ttl < 0)
  {
    now - e.timestamp > e.ttl
  }

  /** The logical content of the cache at time `now`: every key whose entry
      has not expired, mapped to its value. Expired entries that are still
      in the table are not part of it. */
  function Live<V>(table: Table<V>, now: int): (m: map<string, V>)
    ensures forall k :: k in m <==> k in table && !Expired(table[k], now)
    ensures forall k :: k in m ==> m[k] == table[k].data
  {
    map k | k in table && !Expired(table[k], now) :: table[k].data
  }

  /** The table with every entry expired at `now` removed. */
  function Sweep<V>(table: Table<V>, now: int): (t: Table<V>)
    ensures forall k :: k in t <==> k in table && !Expired(table[k], now)
    ensures forall k :: k in t ==> t[k] == table[k]
  {
    map k | k in table && !Expired(table[k], now) :: table[k]
  }

  /** The ttl a `set` uses: the one given, or the default when omitted. */
  function EffectiveTTL(ttl: Option<int>): int
  {
    match ttl
    case Some(t) => t
    case None => DefaultTTL
  }

  // ---------------------------------------------------------------------
  // Step functions, one per operation of the cache service. Each contract
  // says what the step does to the logical content and to the counters.

  /** `set`: the key now holds a fresh entry stamped `now`; no other key and
      no counter changes. */
  function SetOp<V>(s: CacheState<V>, key: string, data: V, ttl: Option<int>, now: int): (r: CacheState<V>)
    ensures key in r.table && r.table[key].data == data && r.table[key].timestamp == now
    ensures r.table[key].ttl == if ttl.Some? then ttl.value else 300000
    ensures forall k :: k != key ==> (k in r.table <==> k in s.table)
    ensures forall k :: k != key && k in r.table ==> r.table[k] == s.table[k]
    ensures r.hits == s.hits && r.misses == s.misses
  {
    s.(table := s.table[key := Entry(data, now, EffectiveTTL(ttl))])
  }

  /** `get`: answers from the logical content, leaves that content as it
      was, and counts one hit or one miss according to the answer. */
  function GetOp<V>(s: CacheState<V>, key: string, now: int): (r: (CacheState<V>, Option<V>))
    ensures r.1.Some? <==> key in Live(s.table, now)
    ensures r.1.Some? ==> r.1.value == Live(s.table, now)[key]
    ensures Live(r.0.table, now) == Live(s.table, now)
    ensures r.0.table.Keys <= s.table.Keys
    ensures r.0.hits == s.hits + (if r.1.Some? then 1 else 0)
    ensures r.0.misses == s.misses + (if r.1.None? then 1 else 0)
  {
    if key !in s.table then
      (s.(misses := s.misses + 1), None)
    else if Expired(s.table[key], now) then
      (s.(table := s.table - {key}, misses := s.misses + 1), None)
    else
      (s.(hits := s.hits + 1), Some(s.table[key].data))
  }

  /** `has`: true exactly for a key of the logical content; leaves that
      content and both counters as they were. */
  function HasOp<V>(s: CacheState<V>, key: string, now: int): (r: (CacheState<V>, bool))
    ensures r.1 <==> key in Live(s.table, now)
    ensures Live(r.0.table, now) == Live(s.table, now)
    ensures r.0.table.Keys <= s.table.Keys
    ensures r.0.hits == s.hits && r.0.misses == s.misses
  {
    if key !in s.table then
      (s, false)
    else if Expired(s.table[key], now) then
      (s.(table := s.table - {key}), false)
    else
      (s, true)
  }

  /** `delete`: reports whether the key was in the raw table, expired or
      not, and afterwards it is not; nothing else changes. */
  function DeleteOp<V>(s: CacheState<V>, key: string): (r: (CacheState<V>, bool))
    ensures r.1 <==> key in s.table
    ensures key !in r.0.table
    ensures forall k :: k != key ==> (k in r.0.table <==> k in s.table)
    ensures forall k :: k in r.0.table ==> r.0.table[k] == s.table[k]
    ensures r.0.hits == s.hits && r.0.misses == s.misses
  {
    (s.(table := s.table - {key}), key in s.table)
  }

  /** `clear`: no key is left and both counters are back to zero. */
  function ClearOp<V>(s: CacheState<V>): (r: CacheState<V>)
    ensures forall k :: k !in r.table
    ensures r.hits == 0 && r.misses == 0
  {
    CacheState(map[], 0, 0)
  }

  /** `cleanup`: drops every entry expired at `now` and nothing else, so the
      logical content and the counters stay as they were. */
  function CleanupOp<V>(s: CacheState<V>, now: int): (r: CacheState<V>)
    ensures forall k :: k in r.table <==> k in s.table && !Expired(s.table[k], now)
    ensures forall k :: k in r.table ==> r.table[k] == s.table[k]
    ensures Live(r.table, now) == Live(s.table, now)
    ensures r.hits == s.hits && r.misses == s.misses
  {
    s.(table := Sweep(s.table, now))
  }

  // ---------------------------------------------------------------------
  // set

  /** `set` replaces whatever was stored under `key` by the new value stamped
      with `now` and the effective ttl; other keys and the counters are
      untouched. Omitting the ttl means five minutes. */
  lemma SetOverwrites<V>(s: CacheState<V>, key: string, data: V, ttl: Option<int>, now: int)
    ensures var s' := SetOp(s, key, data, ttl, now);
      && key in s'.table
      && s'.table[key] == Entry(data, now, if ttl.Some? then ttl.value else 300000)
      && s'.table.Keys == s.table.Keys + {key}
      && (forall k :: k in s.table && k != key ==> s'.table[k] == s.table[k])
      && s'.hits == s.hits && s'.misses == s.misses
  {
  }

  /** On the logical content, `set` is a map update when the ttl is not
      negative; with a negative ttl the new entry is born expired, so the key
      drops out of the logical content instead. */
  lemma SetLive<V>(s: CacheState<V>, key: string, data: V, ttl: Option<int>, now: int)
    ensures EffectiveTTL(ttl) >= 0 ==>
      Live(SetOp(s, key, data, ttl, now).table, now) == Live(s.table, now)[key := data]
    ensures EffectiveTTL(ttl) < 0 ==>
      Live(SetOp(s, key, data, ttl, now).table, now) == Live(s.table, now) - {key}
  {
  }

  /** Expiry is strict: a `get` at the very instant of the `set` is a hit
      returning the value whenever the ttl is not negative. */
  lemma SetThenGetSameInstant<V>(s: CacheState<V>, key: string, data: V, ttl: Option<int>, now: int)
    requires EffectiveTTL(ttl) >= 0
    ensures var (s', r) := GetOp(SetOp(s, key, data, ttl, now), key, now);
      && r == Some(data)
      && s'.hits == s.hits + 1 && s'.misses == s.misses
      && key in s'.table
  {
  }

  /** A `get` exactly `ttl` milliseconds after the `set` is still a hit; one
      millisecond later it is a miss that evicts the entry. */
  lemma ExpiryBoundary<V>(s: CacheState<V>, key: string, data: V, ttl: int, now: int)
    ensures GetOp(SetOp(s, key, data, Some(ttl), now), key, now + ttl).1 == Some(data)
    ensures var (s', r) := GetOp(SetOp(s, key, data, Some(ttl), now), key, now + ttl + 1);
      r == None && key !in s'.table && s'.misses == s.misses + 1 && s'.hits == s.hits
  {
  }

  // ---------------------------------------------------------------------
  // get

  /** `get` answers from the logical content: the value for a live key,
      nothing for a missing or expired one. */
  lemma GetReturnsLive<V>(s: CacheState<V>, key: string, now: int)
    ensures var r := GetOp(s, key, now).1;
      && (r.Some? <==> key in Live(s.table, now))
      && (r.Some? ==> r.value == Live(s.table, now)[key])
  {
  }

  /** A `get` of a key not in the table is a miss: nothing is returned, the
      miss counter goes up by one, and nothing else changes. */
  lemma GetAbsent<V>(s: CacheState<V>, key: string, now: int)
    requires key !in s.table
    ensures GetOp(s, key, now) == (CacheState(s.table, s.hits, s.misses + 1), None)
  {
  }

  /** A `get` of an expired entry evicts exactly that key and is a miss. */
  lemma GetExpired<V>(s: CacheState<V>, key: string, now: int)
    requires key in s.table && now - s.table[key].timestamp > s.table[key].ttl
    ensures var (s', r) := GetOp(s, key, now);
      && r == None
      && s'.table.Keys == s.table.Keys - {key}
      && (forall k :: k in s'.table ==> s'.table[k] == s.table[k])
      && s'.hits == s.hits && s'.misses == s.misses + 1
  {
  }

  /** A `get` of a live entry is a hit: the stored value is returned, the hit
      counter goes up by one, and the table is untouched. */
  lemma GetLive<V>(s: CacheState<V>, key: string, now: int)
    requires key in s.table && now - s.table[key].timestamp <= s.table[key].ttl
    ensures GetOp(s, key, now) == (CacheState(s.table, s.hits + 1, s.misses), Some(s.table[key].data))
  {
  }

  /** Every `get` counts exactly one access, as a hit when it returns a value
      and as a miss when it does not. */
  lemma GetCountsOneAccess<V>(s: CacheState<V>, key: string, now: int)
    ensures var (s', r) := GetOp(s, key, now);
      && s'.hits == s.hits + (if r.Some? then 1 else 0)
      && s'.misses == s.misses + (if r.None? then 1 else 0)
  {
  }

  /** Lazy eviction never changes the logical content. */
  lemma GetPreservesLive<V>(s: CacheState<V>, key: string, now: int)
    ensures Live(GetOp(s, key, now).0.table, now) == Live(s.table, now)
  {
  }

  // ---------------------------------------------------------------------
  // has

  /** `has` applies the same expiry rule as `get`: it is true exactly when
      `get` would return a value, it evicts exactly what `get` would evict,
      and it never touches the counters. */
  lemma HasAgreesWithGet<V>(s: CacheState<V>, key: string, now: int)
    ensures var (sh, b) := HasOp(s, key, now);
      var (sg, r) := GetOp(s, key, now);
      && b == r.Some?
      && sh.table == sg.table
      && sh.hits == s.hits && sh.misses == s.misses
  {
  }

  /** `has` is true exactly for the keys of the logical content. */
  lemma HasIsLiveMembership<V>(s: CacheState<V>, key: string, now: int)
    ensures HasOp(s, key, now).1 <==> key in Live(s.table, now)
  {
  }

  // ---------------------------------------------------------------------
  // delete

  /** `delete` reports whether the key was in the table (expired or not),
      removes only that key, and leaves the counters alone. */
  lemma DeleteRemovesOnlyKey<V>(s: CacheState<V>, key: string)
    ensures var (s', b) := DeleteOp(s, key);
      && (b <==> key in s.table)
      && s'.table.Keys == s.table.Keys - {key}
      && (forall k :: k in s'.table ==> s'.table[k] == s.table[k])
      && s'.hits == s.hits && s'.misses == s.misses
  {
  }

  /** A second `delete` of the same key finds nothing. */
  lemma DeleteTwice<V>(s: CacheState<V>, key: string)
    ensures DeleteOp(DeleteOp(s, key).0, key).1 == false
    ensures DeleteOp(DeleteOp(s, key).0, key).0 == DeleteOp(s, key).0
  {
  }

  /** On the logical content, `delete` removes the key. */
  lemma DeleteLive<V>(s: CacheState<V>, key: string, now: int)
    ensures Live(DeleteOp(s, key).0.table, now) == Live(s.table, now) - {key}
  {
  }

  // ---------------------------------------------------------------------
  // clear

  /** `clear` empties the table and resets both counters, whatever the state. */
  lemma ClearResets<V>(s: CacheState<V>, now: int)
    ensures var s' := ClearOp(s);
      |s'.table| == 0 && s'.hits == 0 && s'.misses == 0 && Live(s'.table, now) == map[]
  {
  }

  // ---------------------------------------------------------------------
  // cleanup

  /** The sweep keeps every live entry unchanged and removes every expired
      one, so it never grows the table. */
  lemma {:induction false} SweepShrinks<V>(table: Table<V>, now: int)
    ensures Sweep(table, now).Keys <= table.Keys
    ensures |Sweep(table, now)| <= |table|
    ensures |Sweep(table, now)| == |Live(table, now)|
  {
    var t := Sweep(table, now);
    SubsetCardinality(t.Keys, table.Keys);
    assert t.Keys == Live(table, now).Keys;
  }

  /** A subset has no more elements than its superset. */
  lemma {:induction false} SubsetCardinality<K>(a: set<K>, b: set<K>)
    requires a <= b
    ensures |a| <= |b|
    decreases b
  {
    if a != {} {
      var x :| x in a;
      SubsetCardinality(a - {x}, b - {x});
    }
  }

  /** Sweeping twice at the same time removes nothing more. */
  lemma SweepIdempotent<V>(table: Table<V>, now: int)
    ensures Sweep(Sweep(table, now), now) == Sweep(table, now)
  {
  }

  /** `cleanup` removes exactly the expired entries, keeps live ones with
      their data, leaves the counters alone and is idempotent. */
  lemma CleanupRemovesExactlyExpired<V>(s: CacheState<V>, now: int)
    ensures var s' := CleanupOp(s, now);
      && (forall k :: k in s'.table <==> k in s.table && now - s.table[k].timestamp <= s.table[k].ttl)
      && (forall k :: k in s'.table ==> s'.table[k] == s.table[k])
      && s'.hits == s.hits && s'.misses == s.misses
      && CleanupOp(s', now) == s'
  {
  }

  /** `cleanup` does not change the logical content; only the raw size can
      drop. */
  lemma CleanupPreservesLive<V>(s: CacheState<V>, now: int)
    ensures Live(CleanupOp(s, now).table, now) == Live(s.table, now)
  {
  }

  /** A sweep and a lazy eviction by `get` at the same time commute: whichever
      removes an expired entry first, the result and the final state agree. */
  lemma CleanupCommutesWithGet<V>(s: CacheState<V>, key: string, now: int)
    ensures GetOp(CleanupOp(s, now), key, now).1 == GetOp(s, key, now).1
    ensures GetOp(CleanupOp(s, now), key, now).0 == CleanupOp(GetOp(s, key, now).0, now)
  {
  }

  // ---------------------------------------------------------------------
  // time

  /** Entries only ever die as time passes: whatever is live at a later time
      was live at every earlier time, with the same value. */
  lemma LiveShrinksOverTime<V>(table: Table<V>, earlier: int, later: int)
    requires earlier <= later
    ensures Live(table, later).Keys <= Live(table, earlier).Keys
    ensures forall k :: k in Live(table, later) ==> Live(table, later)[k] == Live(table, earlier)[k]
  {
  }
}
