/** What evicting the oldest result comes to over whole runs, with any number of addresses. */
module ProbeEviction {
  import opened Prelude
  import opened Probing
  import ProbeSafety

  /** The other addresses with a published dial whose `now` was no earlier. */
  function Rivals(flights: seq<Flight>, key: string, now: int): set<string> {
    set g | 0 <= g < |flights| && flights[g].outcome.Done? && flights[g].key != key && flights[g].now >= now
      :: flights[g].key
  }

  /** Enough of them to fill the rest of the cache. */
  predicate Crowded(flights: seq<Flight>, fl: Flight) {
    |Rivals(flights, fl.key, fl.now)| >= CACHE_MAX_ENTRIES - 1
  }

  /** Some caller whose dial has been published came a whole lifetime later. */
  predicate Outlived(c: Params, flights: seq<Flight>, fl: Flight) {
    exists g :: 0 <= g < |flights| && flights[g].outcome.Done? && flights[g].now >= fl.now + c.ttl
  }

  predicate MayBeLost(c: Params, flights: seq<Flight>, fl: Flight) {
    Outlived(c, flights, fl) || Crowded(flights, fl)
  }

  /** The cache answers for the address as long as the dial's result lives. */
  predicate Cached(c: Params, cache: map<string, CacheEntry>, fl: Flight) {
    fl.key in cache && cache[fl.key].inserted >= fl.now && cache[fl.key].expires == cache[fl.key].inserted + c.ttl
  }

  predicate Remembers(c: Params, s: State) {
    forall f :: 0 <= f < |s.flights| && s.flights[f].outcome.Done? ==>
      Cached(c, s.cache, s.flights[f]) || MayBeLost(c, s.flights, s.flights[f])
  }

  /** Whoever dials found nothing fresh, and nobody else has stored under the address since. */
  predicate DialsStale(s: State) {
    forall f :: 0 <= f < |s.flights| && s.flights[f].outcome.Pending? && s.flights[f].key in s.cache ==>
      s.cache[s.flights[f].key].expires <= s.flights[f].now
  }

  predicate RedialsExcused(c: Params, s: State) {
    forall f, g :: 0 <= f < g < |s.flights| && s.flights[f].key == s.flights[g].key ==>
      && s.flights[f].outcome.Done?
      && (s.flights[g].now >= s.flights[f].now + c.ttl || MayBeLost(c, s.flights, s.flights[f]))
  }

  predicate Retained(c: Params, s: State) {
    Remembers(c, s) && DialsStale(s) && RedialsExcused(c, s)
  }

  // ---- histories only grow ----

  /** Published dials stay published, and no address or `now` changes. */
  predicate Continues(fs: seq<Flight>, gs: seq<Flight>) {
    |fs| <= |gs| && forall f :: 0 <= f < |fs| ==>
      gs[f].key == fs[f].key && gs[f].now == fs[f].now && (fs[f].outcome.Done? ==> gs[f].outcome.Done?)
  }

  lemma LostStays(c: Params, fs: seq<Flight>, gs: seq<Flight>, fl: Flight)
    requires Continues(fs, gs) && MayBeLost(c, fs, fl)
    ensures MayBeLost(c, gs, fl)
  {
    if Outlived(c, fs, fl) {
      var g :| 0 <= g < |fs| && fs[g].outcome.Done? && fs[g].now >= fl.now + c.ttl;
      assert gs[g].outcome.Done? && gs[g].now >= fl.now + c.ttl;
    } else {
      forall k | k in Rivals(fs, fl.key, fl.now)
        ensures k in Rivals(gs, fl.key, fl.now)
      {
        var g :| 0 <= g < |fs| && fs[g].outcome.Done? && fs[g].key == k && fs[g].key != fl.key && fs[g].now >= fl.now;
        assert gs[g].key == k;
      }
      SubsetSize(Rivals(fs, fl.key, fl.now), Rivals(gs, fl.key, fl.now));
    }
  }

  // ---- registering ----

  lemma RegisterKeeps(c: Params, s: State, u: State, fl: Flight)
    requires Retained(c, s) && u.flights == s.flights + [fl] && u.cache == s.cache && fl.outcome.Pending?
    requires !Fresh(s.cache, fl.key, fl.now)
    requires forall f :: 0 <= f < |s.flights| && s.flights[f].key == fl.key ==> s.flights[f].outcome.Done?
    ensures Retained(c, u)
  {
    forall f | 0 <= f < |s.flights| && MayBeLost(c, s.flights, s.flights[f])
      ensures MayBeLost(c, u.flights, s.flights[f])
    {
      LostStays(c, s.flights, u.flights, s.flights[f]);
    }
    assert forall f :: 0 <= f < |s.flights| ==> u.flights[f] == s.flights[f];
  }

  lemma AllDone(c: Params, s: State, key: string)
    requires Inv(c, s) && key !in s.inflight
    ensures forall f :: 0 <= f < |s.flights| && s.flights[f].key == key ==> s.flights[f].outcome.Done?
  {
    forall f | 0 <= f < |s.flights| && s.flights[f].key == key
      ensures s.flights[f].outcome.Done?
    {
      assert FlightSound(s, f);
    }
  }

  lemma EnterKeeps(c: Params, s: State, t: nat)
    requires Inv(c, s) && Retained(c, s) && Enabled(c, s, Enter(t))
    ensures Retained(c, DoEnter(s, t))
  {
    var key, p, u := s.threads[t].key, s.threads[t].phase, DoEnter(s, t);
    if !Fresh(s.cache, key, p.now) && key !in s.inflight {
      AllDone(c, s, key);
      RegisterKeeps(c, s, u, Flight(key, t, p.now, s.clock, Pending));
    } else {
      SameDials(c, s, u);
    }
  }

  lemma SameDials(c: Params, s: State, u: State)
    requires Retained(c, s) && u.flights == s.flights && u.cache == s.cache
    ensures Retained(c, u)
  {}

  // ---- publishing ----

  /** An entry no older makes its address a rival. */
  lemma EntryIsRival(c: Params, fs: seq<Flight>, gs: seq<Flight>, g: nat, k: string, e: CacheEntry, fl: Flight)
    requires Continues(fs, gs) && g < |fs| && Sources(c, fs[g], k, e)
    requires k != fl.key && e.inserted >= fl.now
    ensures k in Rivals(gs, fl.key, fl.now)
  {
    assert gs[g].outcome.Done? && gs[g].key == k && gs[g].now >= fl.now;
  }

  /** The oldest of a full cache has a full cache of rivals. */
  lemma EvictedIsCrowded(c: Params, s: State, gs: seq<Flight>, keys: set<string>, fl: Flight)
    requires CacheSound(c, s) && Continues(s.flights, gs) && keys <= s.cache.Keys
    requires |keys| >= CACHE_MAX_ENTRIES && fl.key in keys
    requires forall k :: k in keys ==> s.cache[k].inserted >= fl.now
    ensures Crowded(gs, fl)
  {
    var rest := keys - {fl.key};
    forall k | k in rest
      ensures k in Rivals(gs, fl.key, fl.now)
    {
      var g :| 0 <= g < |s.flights| && Sources(c, s.flights[g], k, s.cache[k]);
      EntryIsRival(c, s.flights, gs, g, k, s.cache[k], fl);
    }
    SubsetSize(rest, Rivals(gs, fl.key, fl.now));
  }

  /** Why another address's entry is gone after a store: it had expired for the storing caller, or it was
      the oldest of a full cache. */
  lemma WhyGone(ttl: int, cache: map<string, CacheEntry>, key: string, now: int, res: Result, victim: string, k: string)
    requires ttl > 0 && LegalVictim(ttl, cache, key, now, victim)
    requires k in cache && k != key && k !in CacheAfter(ttl, cache, key, now, res, victim)
    ensures cache[k].expires <= now || (|Swept(cache, now)| >= CACHE_MAX_ENTRIES && IsOldest(Swept(cache, now), k))
  {}

  /** A store that had to make room leaves no other entry that has expired for the storing caller. */
  lemma NoneExpiredLeft(ttl: int, cache: map<string, CacheEntry>, key: string, now: int, res: Result, victim: string,
                        k: string)
    requires ttl > 0 && LegalVictim(ttl, cache, key, now, victim)
    requires key !in cache && |cache| >= CACHE_MAX_ENTRIES
    requires k != key && k in CacheAfter(ttl, cache, key, now, res, victim)
    ensures k in cache && CacheAfter(ttl, cache, key, now, res, victim)[k] == cache[k] && now < cache[k].expires
  {}

  lemma SweptKeys(cache: map<string, CacheEntry>, now: int, k: string)
    requires |Swept(cache, now)| >= CACHE_MAX_ENTRIES && IsOldest(Swept(cache, now), k)
    ensures |Swept(cache, now).Keys| >= CACHE_MAX_ENTRIES && Swept(cache, now).Keys <= cache.Keys
    ensures k in Swept(cache, now).Keys
    ensures forall j :: j in Swept(cache, now).Keys ==> cache[j].inserted >= cache[k].inserted
  {
    var swept := Swept(cache, now);
    assert |swept| == |swept.Keys|;
    forall j | j in swept.Keys
      ensures cache[j].inserted >= cache[k].inserted
    {
      assert swept[j] == cache[j] && swept[k] == cache[k];
    }
  }

  /** What is left in the cache is as it was, but for the address stored. */
  lemma StoreChangesOne(ttl: int, cache: map<string, CacheEntry>, key: string, now: int, res: Result,
                        victim: string, k: string)
    requires k != key && k in CacheAfter(ttl, cache, key, now, res, victim)
    ensures k in cache && CacheAfter(ttl, cache, key, now, res, victim)[k] == cache[k]
  {}

  /** The state after the n-th flight has been published. */
  predicate Published(c: Params, s: State, u: State, n: nat, res: Result, victim: string) {
    && n < |s.flights| && s.flights[n].outcome.Pending?
    && u.flights == s.flights[n := s.flights[n].(outcome := Done(res, s.clock))]
    && LegalVictim(c.ttl, s.cache, s.flights[n].key, s.flights[n].now, victim)
    && u.cache == CacheAfter(c.ttl, s.cache, s.flights[n].key, s.flights[n].now, res, victim)
  }

  lemma GoneMayBeLost(c: Params, s: State, u: State, n: nat, res: Result, victim: string, fl: Flight)
    requires c.ttl > 0 && CacheSound(c, s) && Published(c, s, u, n, res, victim)
    requires fl.key != s.flights[n].key && Cached(c, s.cache, fl) && fl.key !in u.cache
    ensures MayBeLost(c, u.flights, fl)
  {
    var key, now := s.flights[n].key, s.flights[n].now;
    assert Continues(s.flights, u.flights);
    WhyGone(c.ttl, s.cache, key, now, res, victim, fl.key);
    if s.cache[fl.key].expires <= now {
      assert u.flights[n].outcome.Done? && u.flights[n].now >= fl.now + c.ttl;
    } else {
      SweptKeys(s.cache, now, fl.key);
      EvictedIsCrowded(c, s, u.flights, Swept(s.cache, now).Keys, fl);
    }
  }

  lemma StoredIsCached(c: Params, s: State, u: State, n: nat, res: Result, victim: string)
    requires c.ttl > 0 && Published(c, s, u, n, res, victim)
    ensures Cached(c, u.cache, u.flights[n])
  {}

  lemma RemembersOne(c: Params, s: State, u: State, n: nat, res: Result, victim: string, f: nat)
    requires c.ttl > 0 && CacheSound(c, s) && DialsStale(s) && Published(c, s, u, n, res, victim)
    requires f < |s.flights| && f != n && s.flights[f].outcome.Done?
    requires Cached(c, s.cache, s.flights[f]) || MayBeLost(c, s.flights, s.flights[f])
    ensures Cached(c, u.cache, s.flights[f]) || MayBeLost(c, u.flights, s.flights[f])
  {
    var fl := s.flights[f];
    assert Continues(s.flights, u.flights);
    if MayBeLost(c, s.flights, fl) {
      LostStays(c, s.flights, u.flights, fl);
    } else if fl.key == s.flights[n].key {
      assert u.flights[n].outcome.Done? && u.flights[n].now >= fl.now + c.ttl;
    } else if fl.key in u.cache {
      StoreChangesOne(c.ttl, s.cache, s.flights[n].key, s.flights[n].now, res, victim, fl.key);
    } else {
      GoneMayBeLost(c, s, u, n, res, victim, fl);
    }
  }

  lemma PublishRemembers(c: Params, s: State, u: State, n: nat, res: Result, victim: string)
    requires c.ttl > 0 && CacheSound(c, s) && Retained(c, s) && Published(c, s, u, n, res, victim)
    ensures Remembers(c, u)
  {
    forall f | 0 <= f < |u.flights| && u.flights[f].outcome.Done?
      ensures Cached(c, u.cache, u.flights[f]) || MayBeLost(c, u.flights, u.flights[f])
    {
      if f == n {
        StoredIsCached(c, s, u, n, res, victim);
      } else {
        RemembersOne(c, s, u, n, res, victim, f);
      }
    }
  }

  lemma PublishDialsStale(c: Params, s: State, u: State, n: nat, res: Result, victim: string)
    requires DialsStale(s) && Published(c, s, u, n, res, victim) && OnlyDial(s, n)
    ensures DialsStale(u)
  {
    forall f | 0 <= f < |u.flights| && u.flights[f].outcome.Pending? && u.flights[f].key in u.cache
      ensures u.cache[u.flights[f].key].expires <= u.flights[f].now
    {
      StoreChangesOne(c.ttl, s.cache, s.flights[n].key, s.flights[n].now, res, victim, u.flights[f].key);
    }
  }

  /** No other dial of this address is pending. */
  predicate OnlyDial(s: State, n: nat)
    requires n < |s.flights|
  {
    forall f :: 0 <= f < |s.flights| && s.flights[f].outcome.Pending? && s.flights[f].key == s.flights[n].key ==> f == n
  }

  lemma PublishExcused(c: Params, s: State, u: State, n: nat, res: Result, victim: string)
    requires RedialsExcused(c, s) && Published(c, s, u, n, res, victim)
    ensures RedialsExcused(c, u)
  {
    forall f, g | 0 <= f < g < |u.flights| && u.flights[f].key == u.flights[g].key
      ensures u.flights[f].outcome.Done?
      ensures u.flights[g].now >= u.flights[f].now + c.ttl || MayBeLost(c, u.flights, u.flights[f])
    {
      assert s.flights[f].key == s.flights[g].key;
      if MayBeLost(c, s.flights, s.flights[f]) { LostStays(c, s.flights, u.flights, s.flights[f]); }
    }
  }

  lemma PublishKeeps(c: Params, s: State, t: nat, victim: string)
    requires c.ttl > 0 && Inv(c, s) && Retained(c, s) && Enabled(c, s, Publish(t, victim))
    ensures Retained(c, DoPublish(c, s, t, victim))
  {
    var u, n := DoPublish(c, s, t, victim), s.threads[t].phase.flight;
    var res := s.threads[t].phase.res;
    assert ThreadSound(c, s, t) && FlightSound(s, n);
    forall f | 0 <= f < |s.flights| && s.flights[f].outcome.Pending? && s.flights[f].key == s.flights[n].key
      ensures f == n
    {
      assert FlightSound(s, f);
    }
    assert Published(c, s, u, n, res, victim);
    PublishRemembers(c, s, u, n, res, victim);
    PublishDialsStale(c, s, u, n, res, victim);
    PublishExcused(c, s, u, n, res, victim);
  }

  // ---- over whole runs ----

  lemma RetainedStep(c: Params, s: State, step: Step)
    requires c.ttl > 0 && Inv(c, s) && Retained(c, s) && Enabled(c, s, step)
    ensures Retained(c, Do(c, s, step))
  {
    match step
    case Enter(t) => EnterKeeps(c, s, t);
    case Publish(t, victim) => PublishKeeps(c, s, t, victim);
    case _ =>
      ProbeSafety.QuietStep(c, s, step);
      SameDials(c, s, Do(c, s, step));
  }

  lemma {:induction false} RetainedRun(c: Params, s: State, steps: seq<Step>)
    requires c.ttl > 0 && Inv(c, s) && Retained(c, s) && Legal(c, s, steps)
    ensures Retained(c, Exec(c, s, steps))
    decreases |steps|
  {
    if steps != [] {
      RetainedStep(c, s, steps[0]);
      InvStep(c, s, steps[0]);
      RetainedRun(c, Do(c, s, steps[0]), steps[1..]);
    }
  }

  /** In every run, with any number of addresses: a published result answers from the cache until some
      caller has come a whole lifetime later, or until at least 4095 other addresses have results with a
      `now` no earlier; and an address is dialled again only for a caller who comes a lifetime later
      itself, or after one of these. */
  lemma LostOnlyWhen(c: Params, steps: seq<Step>)
    requires c.ttl > 0 && Legal(c, INIT, steps)
    ensures var s := Exec(c, INIT, steps); Remembers(c, s) && RedialsExcused(c, s)
  {
    RetainedRun(c, INIT, steps);
  }
}
