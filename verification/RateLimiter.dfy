/** The two rate-limit backends of object-api's handler. Times and windows are in nanoseconds. */
module RateLimiter {
  import opened GoStrings

  // The in-memory backend

  datatype WindowCounter = WindowCounter(windowStart: int, count: int)

  type Entries = map<string, WindowCounter>

  /** Entries the cleanup keeps. */
  function Kept(entries: Entries, window: int, now: int): Entries {
    map k | k in entries && now - entries[k].windowStart < window * 2 :: entries[k]
  }

  function Swept(entries: Entries, window: int, now: int): Entries {
    if |entries| > 1000 then Kept(entries, window, now) else entries
  }

  /** The counter of the window `now` falls in, if one is running. */
  function Running(entries: Entries, key: string, window: int, now: int): Option<WindowCounter> {
    if key in entries && now - entries[key].windowStart < window then Some(entries[key]) else None
  }

  predicate Admits(entries: Entries, key: string, limit: int, window: int, now: int) {
    var running := Running(entries, key, window, now);
    running.None? || running.value.count < limit
  }

  function Counted(entries: Entries, key: string, limit: int, window: int, now: int): Entries {
    var running := Running(entries, key, window, now);
    if running.None? then entries[key := WindowCounter(now, 1)]
    else if running.value.count >= limit then entries
    else entries[key := running.value.(count := running.value.count + 1)]
  }

  class FixedWindowLimiter {
    var entries: Entries

    constructor ()
      ensures entries == map[]
    {
      entries := map[];
    }

    method Allow(key: string, limit: int, window: int, now: int) returns (ok: bool)
      modifies this
      ensures ok == Admits(Swept(old(entries), window, now), key, limit, window, now)
      ensures entries == Counted(Swept(old(entries), window, now), key, limit, window, now)
      ensures |old(entries)| <= 1000 ==> old(entries).Keys <= entries.Keys
      // Memory: either few entries are left or all of them are young.
      ensures window > 0 ==>
                |entries| <= 1001 || forall k :: k in entries ==> now - entries[k].windowStart < window * 2
    {
      if |entries| > 1000 {
        Cleanup(window, now);
      }
      if key !in entries || now - entries[key].windowStart >= window {
        SizeAfterUpdate(entries, key, WindowCounter(now, 1));
        entries := entries[key := WindowCounter(now, 1)];
        return true;
      }
      var entry := entries[key];
      if entry.count >= limit {
        return false;
      }
      SizeAfterUpdate(entries, key, entry.(count := entry.count + 1));
      entries := entries[key := entry.(count := entry.count + 1)];
      return true;
    }

    /** The deletion loop, in any order of the map's keys. */
    method Cleanup(window: int, now: int)
      modifies this
      ensures entries == Kept(old(entries), window, now)
    {
      var todo := entries.Keys;
      while todo != {}
        invariant todo <= old(entries).Keys
        invariant entries.Keys <= old(entries).Keys
        invariant forall k :: k in old(entries) ==>
                    (k in entries <==> k in todo || now - old(entries)[k].windowStart < window * 2)
        invariant forall k :: k in entries ==> k in old(entries) && entries[k] == old(entries)[k]
      {
        var k :| k in todo;
        if now - entries[k].windowStart >= window * 2 {
          entries := entries - {k};
        }
        todo := todo - {k};
      }
    }
  }

  lemma SizeAfterUpdate(entries: Entries, key: string, c: WindowCounter)
    ensures |entries[key := c]| <= |entries| + 1
  {
    assert entries[key := c].Keys == entries.Keys + {key};
  }

  // The Redis backend

  /** A counter, and when it goes; INCR makes one without an expiry. */
  datatype Counter = Counter(count: int, expireAt: Option<int>)

  type Redis = map<string, Counter>

  function Present(redis: Redis, key: string, now: int): Option<Counter> {
    if key in redis && (redis[key].expireAt.None? || now < redis[key].expireAt.value) then Some(redis[key]) else None
  }

  function Incremented(redis: Redis, key: string, now: int): Counter {
    var present := Present(redis, key, now);
    if present.None? then Counter(1, None) else present.value.(count := present.value.count + 1)
  }

  /** The key after INCR, and after EXPIRE when INCR made it and EXPIRE got through. */
  function Bumped(redis: Redis, key: string, window: int, now: int, expireOk: bool): Redis {
    var stored := Incremented(redis, key, now);
    redis[key := if stored.count == 1 && expireOk then stored.(expireAt := Some(now + window)) else stored]
  }

  class RedisCounters {
    var store: Redis

    method AllowRedis(key: string, limit: int, window: int, now: int, incrOk: bool, expireOk: bool) returns (ok: bool)
      modifies this
      ensures !incrOk ==> ok && store == old(store)
      ensures incrOk ==> store == Bumped(old(store), key, window, now, expireOk)
      ensures incrOk ==> (ok <==> Incremented(old(store), key, now).count <= limit)
    {
      if !incrOk {
        return true;
      }
      var stored := Incremented(store, key, now);
      store := store[key := stored];
      if stored.count == 1 {
        if expireOk {
          store := store[key := stored.(expireAt := Some(now + window))];
        }
      }
      return stored.count <= limit;
    }
  }
}
