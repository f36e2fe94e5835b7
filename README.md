# TTL cache of the news API, modelled in Dafny

The news API keeps answers from its upstream news provider in an
in-process time-to-live cache, `CacheService` (`src/cache.ts`). The cache is
a string-keyed table of entries `{data, timestamp, ttl}`. An entry is
expired when strictly more than `ttl` milliseconds have passed since it was
stored. `get` and `has` evict an expired entry when they meet it, and a
periodic `cleanup` sweeps the whole table. `get` counts hits and misses.
`clear` empties the table and resets both counters. `getSize` and `getKeys`
report the raw table, including expired entries that have not been removed
yet.

The project has four modules:

- `CacheModel` (`cache_model.dfy`) describes every state-changing operation as a pure
  step function over a state value `CacheState(table, hits, misses)`. Its lemmas
  say what each step means. `Live(table, now)` is the logical content of the
  cache: the keys whose entries have not expired, mapped to their values.
  Each operation is explained by its effect on that content.
- `Cache` (`cache_service.dfy`) is the class `CacheService<V>`. Its methods
  update the fields `cache`, `hitCount` and `missCount` in place and are
  proved equal to the step functions. `cleanup` is a loop that deletes from
  the table while it walks the keys, as the original does.
- `CacheTrace` (`cache_trace.dfy`) runs sequences of calls and proves, by
  induction, how the counters evolve over them.
- `CacheScenarios` (`cache_scenarios.dfy`) holds client methods that use
  only the class contracts: an entry expiring, set/has/delete with the
  default ttl, and a sweep with no read.

The clock (`Date.now()`) is an explicit `now: int` parameter of `Set`,
`Get`, `Has` and `Cleanup`. The optional `ttl` argument of `set` is an
`Option<int>`, where `None` stands for the omitted argument and means the
default of 300000 ms. `get` returns `Option<V>`. The original returns
`null` for a miss, so it cannot tell a miss from a stored `null`. The model
can.

Expiry is strict (`now - timestamp > ttl`, src/cache.ts:33), so a `get` at
the instant of the `set` is a hit for every ttl >= 0, including 0
(`SetThenGetSameInstant`, `ExpiryBoundary`). A negative ttl gives an entry
that is expired the moment it is stored.

## Model

| member | source | states |
|---|---|---|
| CacheModel.Live | src/cache.ts:33-42 | the logical content holds exactly the keys whose entry satisfies `now - timestamp <= ttl`, each mapped to its stored data |
| CacheModel.Sweep | src/cache.ts:73-78 | the swept table holds exactly the entries not expired at `now`, each unchanged |
| CacheModel.Expired | src/cache.ts:33 | the strict expiry test `now - timestamp > ttl` (also used at lines 59 and 74), equivalently "the deadline `timestamp + ttl` lies before `now`"; at the instant of storing, an entry is expired only with a negative ttl |
| CacheModel.SetOp | src/cache.ts:5-23 | `set` gives the key a fresh entry with the data, timestamp `now` and the given ttl, or 300000 ms when the ttl is omitted; no other key and neither counter changes |
| CacheModel.GetOp | src/cache.ts:25-43 | `get` returns a value iff the key is in the logical content, and then its value; the logical content is unchanged and the raw keys only shrink; one hit is counted for a value and one miss otherwise |
| CacheModel.HasOp | src/cache.ts:55-66 | `has` is true iff the key is in the logical content; the logical content and both counters are unchanged and the raw keys only shrink |
| CacheModel.DeleteOp | src/cache.ts:45-47 | `delete` returns whether the key was in the raw table, removes it, keeps every other entry unchanged and leaves both counters alone |
| CacheModel.ClearOp | src/cache.ts:49-53 | `clear` leaves no key in the table and both counters at 0 |
| CacheModel.CleanupOp | src/cache.ts:69-78 | `cleanup` keeps exactly the entries not expired at `now`, unchanged, so the logical content and both counters are unchanged |
| CacheModel.SetOverwrites | src/cache.ts:5-23 | after `set` the key maps to `{data, now, ttl}`, with ttl 300000 when omitted; every other key and both counters are unchanged; the key set grows by the key only |
| CacheModel.SetLive | src/cache.ts:17-23 | on the logical content `set` is the map update `[key := data]` when the ttl is not negative, and removes the key when it is negative |
| CacheModel.SetThenGetSameInstant | src/cache.ts:17-42 | a `get` at the instant of the `set` with ttl >= 0 returns the value, adds one hit and no miss |
| CacheModel.ExpiryBoundary | src/cache.ts:33-38 | exactly `ttl` ms after the `set` a `get` still hits; at `ttl + 1` ms it misses, evicts the key and adds one miss |
| CacheModel.GetReturnsLive | src/cache.ts:25-43 | `get` returns a value iff the key is in the logical content, and then returns its value |
| CacheModel.GetAbsent | src/cache.ts:26-31 | `get` of a key not in the table returns nothing, adds one miss and changes nothing else |
| CacheModel.GetExpired | src/cache.ts:33-39 | `get` of an expired entry returns nothing, removes that key only and adds one miss |
| CacheModel.GetLive | src/cache.ts:41-42 | `get` of a live entry returns its data, adds one hit and leaves the table as it was |
| CacheModel.GetCountsOneAccess | src/cache.ts:25-43 | every `get` adds exactly one hit when it returns a value and exactly one miss when it does not |
| CacheModel.GetPreservesLive | src/cache.ts:33-39 | lazy eviction by `get` never changes the logical content |
| CacheModel.HasAgreesWithGet | src/cache.ts:55-66 | `has` is true iff `get` would return a value, evicts exactly what `get` would, and leaves both counters unchanged |
| CacheModel.HasIsLiveMembership | src/cache.ts:55-66 | `has` is true iff the key is in the logical content |
| CacheModel.DeleteRemovesOnlyKey | src/cache.ts:45-47 | `delete` returns true iff the key was in the table, removes only that key, and leaves the counters unchanged |
| CacheModel.DeleteTwice | src/cache.ts:45-47 | a second `delete` of the same key returns false and changes nothing |
| CacheModel.DeleteLive | src/cache.ts:45-47 | on the logical content `delete` removes the key |
| CacheModel.ClearResets | src/cache.ts:49-53 | after `clear` the table is empty, the logical content is empty, and both counters are 0 |
| CacheModel.SweepShrinks | src/cache.ts:69-78 | the sweep keeps a subset of the keys, never grows the size, and leaves exactly as many entries as the logical content has keys |
| CacheModel.SweepIdempotent | src/cache.ts:73-78 | sweeping a second time at the same `now` removes nothing |
| CacheModel.CleanupRemovesExactlyExpired | src/cache.ts:69-78 | `cleanup` keeps exactly the entries with `now - timestamp <= ttl`, with their data unchanged, leaves the counters alone, and is idempotent at a fixed `now` |
| CacheModel.CleanupPreservesLive | src/cache.ts:69-78 | `cleanup` does not change the logical content |
| CacheModel.CleanupCommutesWithGet | src/cache.ts:73-77 | at the same `now`, a sweep before a `get` and a sweep after it give the same result and the same final state |
| CacheModel.LiveShrinksOverTime | src/cache.ts:33 | what is live at a later time was live at every earlier time, with the same value |
| Cache.CacheService.constructor | src/cache.ts:4-7 | a new cache has an empty table, both counters 0 and a default ttl of 300000 ms (five minutes) |
| Cache.CacheService.Set | src/cache.ts:17-23 | the new state is `SetOp` of the old one; the key holds `{data, now, ttl or defaultTTL}` |
| Cache.CacheService.Get | src/cache.ts:25-43 | the new state and result are `GetOp` of the old state; a value is returned iff the key was live; hits plus misses grow by one |
| Cache.CacheService.Delete | src/cache.ts:45-47 | the new state and result are `DeleteOp` of the old state; the result is whether the key was in the table |
| Cache.CacheService.Clear | src/cache.ts:49-53 | the table is empty and both counters are 0 |
| Cache.CacheService.Has | src/cache.ts:55-66 | the new state and result are `HasOp` of the old state; the result is whether the key was live; the counters are unchanged |
| Cache.CacheService.Cleanup | src/cache.ts:69-78 | the loop that deletes while it walks the table leaves `Sweep` of the old table and the same counters, and the same logical content |
| Cache.CacheService.GetSize | src/cache.ts:86-88 | the size is the raw number of keys, expired ones included, and is 0 iff the table is empty |
| Cache.CacheService.GetKeys | src/cache.ts:91-93 | the keys are exactly the table's keys, each once, and there are `GetSize()` of them |
| CacheTrace.StepCounters | src/cache.ts:25-53 | every call other than `clear` leaves each counter unchanged or raises it by one, and only `get` raises one |
| CacheTrace.CountersMonotone | src/cache.ts:25-53 | over any sequence of calls without `clear`, neither counter decreases |
| CacheTrace.AccessesCounted | src/cache.ts:25-43 | over any sequence of calls without `clear`, hits plus misses grow by exactly the number of `get` calls |
| CacheTrace.ClearThenCount | src/cache.ts:49-53 | after a `clear`, hits plus misses equal the number of later `get` calls |
| CacheTrace.NeverSetNeverFound | src/cache.ts:25-31 | a key that no call sets stays out of the table, so `get` of it returns nothing and `has` is false |

## Left out

- The periodic `setInterval` timer and `destroy` (src/cache.ts:10-15, 95-100) are host timer plumbing. `Cleanup` is a method the caller invokes.
- `Date.now()` is a clock read. It is the `now` parameter instead.
- The `console.log` in `cleanup` and the `cleanedCount` tally that only feeds it are logging and are not modelled.
- The insertion order of `getKeys` (JavaScript `Map` iteration order) is not modelled. `GetKeys` returns the keys in an unspecified order.
- Timestamps and ttls are unbounded integers. JavaScript numbers are doubles, so fractional, infinite and NaN ttls are not modelled; with a NaN ttl the original never expires an entry. The counters are unbounded `nat`s, with no 2^53 precision limit.
- The dynamically typed values (`any`, `T` per call) are one type parameter `V` per cache.
- No code computes a hit rate: `CacheStats.hitRate?` (src/types/index.ts:45) is declared but never set, and the counters have no reader; the model keeps them as public fields.
- The singleton export `cacheService` (src/cache.ts:103) is not modelled. Each client constructs its own `CacheService`.
- Concurrency is not modelled. The original runs on a single JavaScript thread without locks.
- src/newsService.ts (the HTTP client that calls `get`/`set`/`clear`), src/index.ts (route stubs) and src/types/index.ts (interfaces; `CacheItem<T>` is the shape of `Entry`) are not part of this model.
