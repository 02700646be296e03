/** The Prober object: the two critical sections of Check, the sweep and the eviction, as methods
    on its maps. Their contracts are the functions the step system of module Probing uses. */
module ProberObject {
  import opened Probing

  /** One in-flight dial: `done` closed or not, and the result once it is. */
  class Inflight {
    var done: bool
    var res: Result

    constructor ()
      ensures !done
    {
      done := false;
      res := Result(false, 0);
    }
  }

  /** What the first critical section tells its caller to do. */
  datatype Entry = Hit(res: Result) | Join(flight: Inflight) | Dial(flight: Inflight)

  class Prober {
    var cache: map<string, CacheEntry>
    var inflight: map<string, Inflight>
    const ttl: int
    var checks: nat

    constructor (cacheTtl: int)
      ensures cache == map[] && inflight == map[] && ttl == cacheTtl && checks == 0
    {
      cache, inflight, checks := map[], map[], 0;
      ttl := cacheTtl;
    }

    /** Check up to the unlock before the dial. */
    method Enter(key: string, now: int) returns (r: Entry)
      modifies this`inflight
      ensures Fresh(cache, key, now) ==> r == Hit(cache[key].res) && inflight == old(inflight)
      ensures !Fresh(cache, key, now) && key in old(inflight) ==>
                r == Join(old(inflight)[key]) && inflight == old(inflight)
      ensures !Fresh(cache, key, now) && key !in old(inflight) ==>
                r.Dial? && fresh(r.flight) && !r.flight.done && inflight == old(inflight)[key := r.flight]
    {
      if key in cache && now < cache[key].expires {
        return Hit(cache[key].res);
      }
      if key in inflight {
        return Join(inflight[key]);
      }
      var flight := new Inflight();
      inflight := inflight[key := flight];
      return Dial(flight);
    }

    /** Check from the second lock to the return: one section counts, caches, publishes and drops. */
    method Publish(key: string, now: int, flight: Inflight, res: Result) returns (ghost victim: string)
      requires |cache| <= CACHE_MAX_ENTRIES
      modifies this, flight
      ensures checks == old(checks) + 1
      ensures LegalVictim(ttl, old(cache), key, now, victim)
      ensures cache == CacheAfter(ttl, old(cache), key, now, res, victim)
      ensures |cache| <= CACHE_MAX_ENTRIES
      ensures flight.done && flight.res == res
      ensures inflight == old(inflight) - {key}
    {
      victim := "";
      checks := checks + 1;
      if ttl > 0 {
        if key !in cache && |cache| >= CACHE_MAX_ENTRIES {
          SweepExpired(now);
          if |cache| >= CACHE_MAX_ENTRIES {
            victim := EvictOldest();
          }
        }
        cache := cache[key := CacheEntry(res, now + ttl, now)];
      }
      flight.res := res;
      flight.done := true;
      inflight := inflight - {key};
      CacheStaysBounded(ttl, old(cache), key, now, res, victim);
    }

    /** sweepExpiredLocked: visits the keys in any order. */
    method SweepExpired(now: int)
      modifies this`cache
      ensures cache == Swept(old(cache), now)
    {
      var todo := cache.Keys;
      while todo != {}
        invariant todo <= cache.Keys <= old(cache).Keys
        invariant forall k :: k in cache ==> cache[k] == old(cache)[k]
        invariant forall k :: k in old(cache) && k !in todo ==> (k in cache <==> now < old(cache)[k].expires)
        decreases |todo|
      {
        var k :| k in todo;
        todo := todo - {k};
        if !(now < cache[k].expires) {
          cache := cache - {k};
        }
      }
    }

    /** evictOldestLocked: a running minimum over the keys, in any order. */
    method EvictOldest() returns (victim: string)
      requires |cache| > 0
      modifies this`cache
      ensures IsOldest(old(cache), victim)
      ensures cache == old(cache) - {victim}
    {
      assert |cache.Keys| == |cache|;
      var todo := cache.Keys;
      var oldest := 0;
      var first := true;
      victim := "";
      while todo != {}
        invariant todo <= cache.Keys
        invariant first ==> todo == cache.Keys
        invariant !first ==> victim in cache && cache[victim].inserted == oldest
        invariant !first ==> forall k :: k in cache && k !in todo ==> oldest <= cache[k].inserted
        decreases |todo|
      {
        var k :| k in todo;
        todo := todo - {k};
        if first || cache[k].inserted < oldest {
          victim, oldest, first := k, cache[k].inserted, false;
        }
      }
      cache := cache - {victim};
    }

    method Stats() returns (n: nat)
      ensures n == checks
    {
      n := checks;
    }
  }
}
