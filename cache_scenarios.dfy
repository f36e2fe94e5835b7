/** Clients of the cache that use nothing but the contracts of its methods,
    following the intended uses of the cache: expiry of a short-lived entry,
    set/has/delete with the default ttl, and a sweep that runs while an
    entry is never read. */
module CacheScenarios {
  import opened Wrappers
  import opened CacheModel
  import opened Cache

  /** A value stored for 100 ms is a hit at once and a miss 150 ms later,
      and that miss leaves the table empty. */
  method ShortLivedEntry(t0: int)
  {
    var c := new CacheService<int>();
    c.Set("a", 42, Some(100), t0);
    var r := c.Get("a", t0);
    assert r == Some(42) && c.hitCount == 1;
    r := c.Get("a", t0 + 150);
    assert r == None && c.missCount == 1;
    assert c.GetSize() == 0;
  }

  /** With the default ttl a fresh entry is present; deleting it succeeds
      once and then reports that nothing was removed. */
  method DefaultTtlDelete(t0: int)
  {
    var c := new CacheService<string>();
    c.Set("b", "x", None, t0);
    var present := c.Has("b", t0 + 1000);
    assert present;
    var removed := c.Delete("b");
    assert removed;
    present := c.Has("b", t0 + 1000);
    assert !present;
    removed := c.Delete("b");
    assert !removed;
  }

  /** A sweep after an entry's ttl drops it from the size without any read,
      while an entry set later survives. */
  method SweepWithoutRead(t0: int)
  {
    var c := new CacheService<int>();
    c.Set("short", 1, Some(30000), t0);
    c.Set("long", 2, None, t0);
    assert c.GetSize() == 2;
    c.Cleanup(t0 + 60000);
    assert "short" !in c.cache && "long" in c.cache;
    assert c.cache.Keys == {"long"};
    assert c.GetSize() == 1;
    assert c.hitCount == 0 && c.missCount == 0;
  }
}
