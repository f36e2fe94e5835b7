/** Sequences of calls on the cache, for properties that span many calls:
    how the hit and miss counters evolve. */
module CacheTrace {
  import opened Wrappers
  import opened CacheModel

  /** One call on the cache with its arguments; calls that read the clock
      carry the time at which they run. */
  datatype Call<V> =
    | SetCall(key: string, data: V, ttl: Option<int>, now: int)
    | GetCall(key: string, now: int)
    | HasCall(key: string, now: int)
    | DeleteCall(key: string)
    | ClearCall
    | CleanupCall(now: int)

  /** The state after one call, its result dropped. */
  function Apply<V>(s: CacheState<V>, c: Call<V>): CacheState<V>
  {
    match c
    case SetCall(k, d, ttl, now) => SetOp(s, k, d, ttl, now)
    case GetCall(k, now) => GetOp(s, k, now).0
    case HasCall(k, now) => HasOp(s, k, now).0
    case DeleteCall(k) => DeleteOp(s, k).0
    case ClearCall => ClearOp(s)
    case CleanupCall(now) => CleanupOp(s, now)
  }

  /** The state after running `calls` in order from `s`. */
  function Run<V>(s: CacheState<V>, calls: seq<Call<V>>): CacheState<V>
    decreases |calls|
  {
    if calls == [] then s else Run(Apply(s, calls[0]), calls[1..])
  }

  /** The number of `get` calls in `calls`. */
  function CountGets<V>(calls: seq<Call<V>>): nat
    decreases |calls|
  {
    if calls == [] then 0 else (if calls[0].GetCall? then 1 else 0) + CountGets(calls[1..])
  }

  /** Every call but `clear` leaves each counter as it was or raises it by
      exactly one, and only `get` raises one. */
  lemma StepCounters<V>(s: CacheState<V>, c: Call<V>)
    requires !c.ClearCall?
    ensures var s' := Apply(s, c);
      && s.hits <= s'.hits <= s.hits + 1
      && s.misses <= s'.misses <= s.misses + 1
      && (!c.GetCall? ==> s'.hits == s.hits && s'.misses == s.misses)
  {
  }

  /** Without a `clear`, neither counter ever decreases. */
  lemma {:induction false} CountersMonotone<V>(s: CacheState<V>, calls: seq<Call<V>>)
    requires forall i :: 0 <= i < |calls| ==> !calls[i].ClearCall?
    ensures Run(s, calls).hits >= s.hits
    ensures Run(s, calls).misses >= s.misses
    decreases |calls|
  {
    if calls != [] {
      StepCounters(s, calls[0]);
      CountersMonotone(Apply(s, calls[0]), calls[1..]);
    }
  }

  /** Without a `clear`, the counters together grow by exactly the number of
      `get` calls: each `get` is one hit or one miss, nothing else counts. */
  lemma {:induction false} AccessesCounted<V>(s: CacheState<V>, calls: seq<Call<V>>)
    requires forall i :: 0 <= i < |calls| ==> !calls[i].ClearCall?
    ensures Run(s, calls).hits + Run(s, calls).misses == s.hits + s.misses + CountGets(calls)
    decreases |calls|
  {
    if calls != [] {
      StepCounters(s, calls[0]);
      AccessesCounted(Apply(s, calls[0]), calls[1..]);
    }
  }

  /** After a `clear`, the counters hold only what the later calls added. */
  lemma {:induction false} ClearThenCount<V>(s: CacheState<V>, calls: seq<Call<V>>)
    requires forall i :: 0 <= i < |calls| ==> !calls[i].ClearCall?
    ensures var s' := Run(s, [ClearCall] + calls);
      s'.hits + s'.misses == CountGets(calls)
  {
    assert ([ClearCall] + calls)[1..] == calls;
    AccessesCounted(ClearOp(s), calls);
  }

  /** A key that no call in `calls` sets is still not in the table after
      them, so every `get` of it is a miss. */
  lemma {:induction false} NeverSetNeverFound<V>(s: CacheState<V>, calls: seq<Call<V>>, key: string, now: int)
    requires key !in s.table
    requires forall i :: 0 <= i < |calls| ==> !(calls[i].SetCall? && calls[i].key == key)
    ensures key !in Run(s, calls).table
    ensures GetOp(Run(s, calls), key, now).1 == None
    ensures HasOp(Run(s, calls), key, now).1 == false
    decreases |calls|
  {
    if calls != [] {
      NeverSetNeverFound(Apply(s, calls[0]), calls[1..], key, now);
    }
  }
}
