/** The reachability prober as a step system: any number of Check calls, grouped into Filter
    calls with a worker semaphore each, interleave at the points where the code takes or
    leaves its mutex, dials, waits for a flight or holds a slot. */
module Probing {
  import opened Prelude

  const PROBE_CONCURRENCY: nat := 4
  const CACHE_MAX_ENTRIES: nat := 4096

  datatype Result = Result(reachable: bool, latency: int)

  datatype CacheEntry = CacheEntry(res: Result, expires: int, inserted: int)

  /** What `in.done` and `in.res` hold: nothing yet, or a result published at a clock value. */
  datatype Outcome = Pending | Done(res: Result, at: int)

  /** One in-flight entry ever registered: its address, the thread that dials, the `now` that
      thread read before locking, and the clock when it registered. */
  datatype Flight = Flight(key: string, owner: nat, now: int, start: int, outcome: Outcome)

  /** Where a worker stands. `acq` is when it got its slot, `now` what it read on entry. */
  datatype Phase =
    | Queued
    | Slotted(acq: int)
    | Called(acq: int, now: int)
    | Dialing(acq: int, now: int, flight: nat)
    | Dialed(acq: int, now: int, flight: nat, res: Result)
    | Waiting(acq: int, now: int, flight: nat)
    | Returned(acq: int, now: int, res: Result)
    | Finished(acq: int, now: int, res: Result, at: int)

  datatype Thread = Thread(group: nat, key: string, phase: Phase)

  /** ttl is the cache lifetime (0 disables caching), timeout the dial timeout. */
  datatype Params = Params(ttl: int, timeout: nat)

  datatype State = State(
    clock: int,
    cache: map<string, CacheEntry>,
    inflight: map<string, nat>,
    flights: seq<Flight>,
    checks: nat,
    groups: map<nat, int>,
    threads: map<nat, Thread>)

  datatype Step =
    | Tick(d: nat)
    | Spawn(group: nat, workers: map<nat, string>)
    | Acquire(t: nat)
    | Call(t: nat)
    | Enter(t: nat)
    | DialEnds(t: nat, res: Result)
    | Publish(t: nat, victim: string)
    | Wake(t: nat)
    | Release(t: nat)

  const INIT := State(0, map[], map[], [], 0, map[], map[])

  predicate HoldsSlot(p: Phase) {
    !p.Queued? && !p.Finished?
  }

  predicate Dials(p: Phase, f: nat) {
    (p.Dialing? || p.Dialed?) && p.flight == f
  }

  function Members(s: State, g: nat): set<nat> {
    set t | t in s.threads && s.threads[t].group == g
  }

  function Held(s: State, g: nat): set<nat> {
    set t | t in s.threads && s.threads[t].group == g && HoldsSlot(s.threads[t].phase)
  }

  // ---- the result cache ----

  predicate Fresh(cache: map<string, CacheEntry>, key: string, now: int) {
    key in cache && now < cache[key].expires
  }

  function Swept(cache: map<string, CacheEntry>, now: int): map<string, CacheEntry> {
    map k | k in cache && now < cache[k].expires :: cache[k]
  }

  predicate IsOldest(cache: map<string, CacheEntry>, k: string) {
    k in cache && forall j :: j in cache ==> cache[k].inserted <= cache[j].inserted
  }

  /** Whether a store under `key` first has to make room even after the sweep. */
  predicate MustEvict(cache: map<string, CacheEntry>, key: string, now: int) {
    key !in cache && |cache| >= CACHE_MAX_ENTRIES && |Swept(cache, now)| >= CACHE_MAX_ENTRIES
  }

  /** Go leaves the choice among equally old entries to the map order: any oldest entry will do. */
  predicate LegalVictim(ttl: int, cache: map<string, CacheEntry>, key: string, now: int, victim: string) {
    ttl > 0 && MustEvict(cache, key, now) ==> IsOldest(Swept(cache, now), victim)
  }

  function MakeRoom(cache: map<string, CacheEntry>, key: string, now: int, victim: string): map<string, CacheEntry> {
    if key in cache || |cache| < CACHE_MAX_ENTRIES then cache
    else if |Swept(cache, now)| < CACHE_MAX_ENTRIES then Swept(cache, now)
    else Swept(cache, now) - {victim}
  }

  function CacheAfter(ttl: int, cache: map<string, CacheEntry>, key: string, now: int, res: Result, victim: string)
    : map<string, CacheEntry>
  {
    if ttl <= 0 then cache
    else MakeRoom(cache, key, now, victim)[key := CacheEntry(res, now + ttl, now)]
  }

  /** Storing keeps the bound, whatever the cache held. */
  lemma CacheStaysBounded(ttl: int, cache: map<string, CacheEntry>, key: string, now: int, res: Result, victim: string)
    requires |cache| <= CACHE_MAX_ENTRIES
    requires LegalVictim(ttl, cache, key, now, victim)
    ensures |CacheAfter(ttl, cache, key, now, res, victim)| <= CACHE_MAX_ENTRIES
  {
    if ttl > 0 {
      var room := MakeRoom(cache, key, now, victim);
      var swept := Swept(cache, now);
      SubsetSize(swept.Keys, cache.Keys);
      assert |swept| == |swept.Keys| && |cache| == |cache.Keys|;
      if key in cache {
        assert room[key := CacheEntry(res, now + ttl, now)].Keys == cache.Keys;
      } else {
        assert |room| < CACHE_MAX_ENTRIES by {
          if MustEvict(cache, key, now) {
            assert room.Keys == swept.Keys - {victim};
          }
        }
        assert room[key := CacheEntry(res, now + ttl, now)].Keys == room.Keys + {key};
      }
    }
  }

  // ---- steps ----

  predicate Enabled(c: Params, s: State, step: Step) {
    match step
    case Tick(d) => true
    case Spawn(g, workers) => g !in s.groups && workers.Keys !! s.threads.Keys
    case Acquire(t) =>
      t in s.threads && s.threads[t].phase.Queued? && |Held(s, s.threads[t].group)| < PROBE_CONCURRENCY
    case Call(t) => t in s.threads && s.threads[t].phase.Slotted?
    case Enter(t) => t in s.threads && s.threads[t].phase.Called?
    case DialEnds(t, res) => t in s.threads && s.threads[t].phase.Dialing?
    case Publish(t, victim) =>
      && t in s.threads && s.threads[t].phase.Dialed? && s.threads[t].phase.flight < |s.flights|
      && LegalVictim(c.ttl, s.cache, s.threads[t].key, s.threads[t].phase.now, victim)
    case Wake(t) =>
      && t in s.threads && s.threads[t].phase.Waiting? && s.threads[t].phase.flight < |s.flights|
      && s.flights[s.threads[t].phase.flight].outcome.Done?
    case Release(t) => t in s.threads && s.threads[t].phase.Returned?
  }

  function Move(s: State, t: nat, p: Phase): State
    requires t in s.threads
  {
    s.(threads := s.threads[t := s.threads[t].(phase := p)])
  }

  function Do(c: Params, s: State, step: Step): State
    requires Enabled(c, s, step)
  {
    match step
    case Tick(d) => s.(clock := s.clock + d)
    case Spawn(g, workers) =>
      s.(groups := s.groups[g := s.clock],
         threads := s.threads + map t | t in workers :: Thread(g, workers[t], Queued))
    case Acquire(t) => Move(s, t, Slotted(s.clock))
    case Call(t) => Move(s, t, Called(s.threads[t].phase.acq, s.clock))
    case Enter(t) => DoEnter(s, t)
    case DialEnds(t, res) =>
      var p := s.threads[t].phase;
      Move(s, t, Dialed(p.acq, p.now, p.flight, res))
    case Publish(t, victim) => DoPublish(c, s, t, victim)
    case Wake(t) =>
      var p := s.threads[t].phase;
      Move(s, t, Returned(p.acq, p.now, s.flights[p.flight].outcome.res))
    case Release(t) =>
      var p := s.threads[t].phase;
      Move(s, t, Finished(p.acq, p.now, p.res, s.clock))
  }

  /** The first critical section of Check: cache hit, join, or register a new flight. */
  function DoEnter(s: State, t: nat): State
    requires t in s.threads && s.threads[t].phase.Called?
  {
    var key, p := s.threads[t].key, s.threads[t].phase;
    if Fresh(s.cache, key, p.now) then Move(s, t, Returned(p.acq, p.now, s.cache[key].res))
    else if key in s.inflight then Move(s, t, Waiting(p.acq, p.now, s.inflight[key]))
    else
      var f := |s.flights|;
      Move(s, t, Dialing(p.acq, p.now, f)).(
        inflight := s.inflight[key := f],
        flights := s.flights + [Flight(key, t, p.now, s.clock, Pending)])
  }

  /** The second critical section: count, cache, publish the result, drop the flight. */
  function DoPublish(c: Params, s: State, t: nat, victim: string): State
    requires Enabled(c, s, Publish(t, victim))
  {
    var key, p := s.threads[t].key, s.threads[t].phase;
    Move(s, t, Returned(p.acq, p.now, p.res)).(
      checks := s.checks + 1,
      cache := CacheAfter(c.ttl, s.cache, key, p.now, p.res, victim),
      flights := s.flights[p.flight := s.flights[p.flight].(outcome := Done(p.res, s.clock))],
      inflight := s.inflight - {key})
  }

  predicate Legal(c: Params, s: State, steps: seq<Step>)
    decreases |steps|
  {
    steps == [] || (Enabled(c, s, steps[0]) && Legal(c, Do(c, s, steps[0]), steps[1..]))
  }

  function Exec(c: Params, s: State, steps: seq<Step>): State
    requires Legal(c, s, steps)
    decreases |steps|
  {
    if steps == [] then s else Exec(c, Do(c, s, steps[0]), steps[1..])
  }

  // ---- the invariant ----

  /** A result a Check call may return: some dial of that very address ended with it, and
      either ended after the call began or began less than a cache lifetime before it. */
  predicate Justified(c: Params, flights: seq<Flight>, key: string, now: int, res: Result) {
    exists f :: 0 <= f < |flights| && Backs(c, flights[f], key, now, res)
  }

  predicate Backs(c: Params, f: Flight, key: string, now: int, res: Result) {
    && f.key == key && f.outcome.Done? && f.outcome.res == res
    && (now <= f.outcome.at || now < f.now + c.ttl)
  }

  predicate Sources(c: Params, f: Flight, key: string, e: CacheEntry) {
    && f.key == key && f.outcome.Done? && f.outcome.res == e.res
    && e.inserted == f.now && e.expires == f.now + c.ttl
  }

  predicate CacheSound(c: Params, s: State) {
    && |s.cache| <= CACHE_MAX_ENTRIES
    && (c.ttl <= 0 ==> s.cache == map[])
    && forall k :: k in s.cache ==>
         exists f :: 0 <= f < |s.flights| && Sources(c, s.flights[f], k, s.cache[k])
  }

  function CountDone(flights: seq<Flight>): nat {
    if flights == [] then 0
    else (if flights[|flights| - 1].outcome.Done? then 1 else 0) + CountDone(flights[..|flights| - 1])
  }

  predicate FlightSound(s: State, f: nat)
    requires f < |s.flights|
  {
    var fl := s.flights[f];
    && fl.start <= s.clock && fl.now <= fl.start
    && (fl.outcome.Pending? ==>
          && fl.key in s.inflight && s.inflight[fl.key] == f
          && fl.owner in s.threads && Dials(s.threads[fl.owner].phase, f))
  }

  predicate ThreadSound(c: Params, s: State, t: nat)
    requires t in s.threads
  {
    var th := s.threads[t];
    && th.group in s.groups
    && match th.phase
       case Queued => true
       case Slotted(acq) => acq <= s.clock
       case Called(acq, now) => acq <= now <= s.clock
       case Dialing(acq, now, f) => acq <= now <= s.clock && OwnsFlight(s, t, f, now)
       case Dialed(acq, now, f, _) => acq <= now <= s.clock && OwnsFlight(s, t, f, now)
       case Waiting(acq, now, f) =>
         && acq <= now <= s.clock && f < |s.flights| && s.flights[f].key == th.key
         && (s.flights[f].outcome.Done? ==> now <= s.flights[f].outcome.at)
       case Returned(acq, now, res) => acq <= now <= s.clock && Justified(c, s.flights, th.key, now, res)
       case Finished(acq, now, res, at) =>
         acq <= now <= at <= s.clock && Justified(c, s.flights, th.key, now, res)
  }

  predicate OwnsFlight(s: State, t: nat, f: nat, now: int)
    requires t in s.threads
  {
    && f < |s.flights| && s.flights[f].outcome.Pending? && s.flights[f].owner == t
    && s.flights[f].key == s.threads[t].key && s.flights[f].now == now
  }

  predicate FlightsSound(s: State) {
    && s.checks == CountDone(s.flights)
    && forall f :: 0 <= f < |s.flights| ==> FlightSound(s, f)
  }

  predicate InflightSound(s: State) {
    forall k :: k in s.inflight ==>
      && s.inflight[k] < |s.flights|
      && s.flights[s.inflight[k]].key == k && s.flights[s.inflight[k]].outcome.Pending?
  }

  predicate ThreadsSound(c: Params, s: State) {
    forall t :: t in s.threads ==> ThreadSound(c, s, t)
  }

  predicate SlotsSound(s: State) {
    forall g :: g in s.groups ==> s.groups[g] <= s.clock && |Held(s, g)| <= PROBE_CONCURRENCY
  }

  predicate Inv(c: Params, s: State) {
    CacheSound(c, s) && FlightsSound(s) && InflightSound(s) && ThreadsSound(c, s) && SlotsSound(s)
  }

  // ---- every step keeps it ----

  /** Flights only grow, and a published one never changes. */
  predicate Grows(a: seq<Flight>, b: seq<Flight>) {
    && |a| <= |b|
    && forall f :: 0 <= f < |a| ==> b[f] == a[f] || (a[f].outcome.Pending? && b[f].key == a[f].key)
  }

  lemma CountAppend(flights: seq<Flight>, f: Flight)
    ensures CountDone(flights + [f]) == CountDone(flights) + (if f.outcome.Done? then 1 else 0)
  {}

  lemma {:induction false} CountUpdate(flights: seq<Flight>, i: nat, f: Flight)
    requires i < |flights| && flights[i].outcome.Pending? && f.outcome.Done?
    ensures CountDone(flights[i := f]) == CountDone(flights) + 1
  {
    var last := |flights| - 1;
    if i == last {
      assert flights[i := f][..last] == flights[..last];
    } else {
      assert flights[i := f][..last] == flights[..last][i := f];
      CountUpdate(flights[..last], i, f);
    }
  }

  /** Moving one thread changes the slot count of its own group only. */
  lemma HeldAfterMove(s: State, t: nat, p: Phase, g: nat)
    requires t in s.threads
    ensures HoldsSlot(p) && g == s.threads[t].group ==> Held(Move(s, t, p), g) == Held(s, g) + {t}
    ensures (HoldsSlot(p) == HoldsSlot(s.threads[t].phase) || g != s.threads[t].group) ==>
              Held(Move(s, t, p), g) == Held(s, g)
    ensures !HoldsSlot(p) && g == s.threads[t].group ==> Held(Move(s, t, p), g) == Held(s, g) - {t}
  {}

  /** A step that moves one thread and touches neither cache, flights nor in-flight table. */
  lemma InvMove(c: Params, s: State, t: nat, p: Phase)
    requires Inv(c, s) && t in s.threads
    requires ThreadSound(c, Move(s, t, p), t)
    requires forall f :: Dials(p, f) <==> Dials(s.threads[t].phase, f)
    requires (HoldsSlot(p) && !HoldsSlot(s.threads[t].phase)) ==>
               |Held(s, s.threads[t].group)| < PROBE_CONCURRENCY
    ensures Inv(c, Move(s, t, p))
  {
    var s' := Move(s, t, p);
    forall f | 0 <= f < |s'.flights| ensures FlightSound(s', f) {
      assert FlightSound(s, f);
    }
    forall u | u in s'.threads ensures ThreadSound(c, s', u) {
      assert ThreadSound(c, s, u);
    }
    forall g | g in s'.groups ensures |Held(s', g)| <= PROBE_CONCURRENCY {
      HeldAfterMove(s, t, p, g);
      if Held(s', g) == Held(s, g) - {t} {
        SubsetSize(Held(s', g), Held(s, g));
      }
    }
  }

  lemma InvTick(c: Params, s: State, d: nat)
    requires Inv(c, s)
    ensures Inv(c, s.(clock := s.clock + d))
  {
    var s' := s.(clock := s.clock + d);
    forall f | 0 <= f < |s'.flights| ensures FlightSound(s', f) { assert FlightSound(s, f); }
    forall u | u in s'.threads ensures ThreadSound(c, s', u) { assert ThreadSound(c, s, u); }
    forall g | g in s'.groups ensures |Held(s', g)| <= PROBE_CONCURRENCY { assert Held(s', g) == Held(s, g); }
  }

  lemma InvSpawn(c: Params, s: State, g: nat, workers: map<nat, string>)
    requires Inv(c, s) && Enabled(c, s, Spawn(g, workers))
    ensures Inv(c, Do(c, s, Spawn(g, workers)))
  {
    var s' := Do(c, s, Spawn(g, workers));
    forall f | 0 <= f < |s'.flights| ensures FlightSound(s', f) { assert FlightSound(s, f); }
    forall u | u in s'.threads ensures ThreadSound(c, s', u) {
      if u in s.threads { assert ThreadSound(c, s, u); }
    }
    SlotsSpawn(c, s, g, workers);
  }

  lemma SlotsSpawn(c: Params, s: State, g: nat, workers: map<nat, string>)
    requires ThreadsSound(c, s) && SlotsSound(s) && Enabled(c, s, Spawn(g, workers))
    ensures SlotsSound(Do(c, s, Spawn(g, workers)))
  {
    var s' := Do(c, s, Spawn(g, workers));
    forall h | h in s'.groups ensures |Held(s', h)| <= PROBE_CONCURRENCY {
      if h == g {
        forall u | u in s.threads ensures s.threads[u].group != g { assert ThreadSound(c, s, u); }
        assert Held(s', h) == {};
      } else {
        assert Held(s', h) == Held(s, h);
      }
    }
  }

  lemma InvEnter(c: Params, s: State, t: nat)
    requires Inv(c, s) && Enabled(c, s, Enter(t))
    ensures Inv(c, DoEnter(s, t))
  {
    var key, p := s.threads[t].key, s.threads[t].phase;
    assert ThreadSound(c, s, t);
    if Fresh(s.cache, key, p.now) {
      var f :| 0 <= f < |s.flights| && Sources(c, s.flights[f], key, s.cache[key]);
      assert Backs(c, s.flights[f], key, p.now, s.cache[key].res);
      InvMove(c, s, t, Returned(p.acq, p.now, s.cache[key].res));
    } else if key in s.inflight {
      InvMove(c, s, t, Waiting(p.acq, p.now, s.inflight[key]));
    } else {
      InvRegister(c, s, t);
    }
  }

  /** A thread that did not move stays sound while flights grow around it. */
  lemma ThreadKeeps(c: Params, s: State, s': State, u: nat)
    requires u in s.threads && u in s'.threads && s'.threads[u] == s.threads[u]
    requires ThreadSound(c, s, u)
    requires s'.clock == s.clock && s'.groups == s.groups && Grows(s.flights, s'.flights)
    requires forall f :: 0 <= f < |s.flights| && s.flights[f].owner == u ==> s'.flights[f] == s.flights[f]
    requires forall f :: 0 <= f < |s.flights| && s'.flights[f] != s.flights[f] ==>
               s'.flights[f].outcome.Done? && s'.flights[f].outcome.at == s.clock
    ensures ThreadSound(c, s', u)
  {}

  lemma InvRegister(c: Params, s: State, t: nat)
    requires Inv(c, s) && Enabled(c, s, Enter(t))
    requires !Fresh(s.cache, s.threads[t].key, s.threads[t].phase.now) && s.threads[t].key !in s.inflight
    ensures Inv(c, DoEnter(s, t))
  {
    FlightsRegister(c, s, t);
    ThreadsRegister(c, s, t);
    CacheRegister(c, s, t);
    SlotsKeep(s, DoEnter(s, t));
  }

  lemma CacheRegister(c: Params, s: State, t: nat)
    requires CacheSound(c, s) && Enabled(c, s, Enter(t))
    requires !Fresh(s.cache, s.threads[t].key, s.threads[t].phase.now) && s.threads[t].key !in s.inflight
    ensures CacheSound(c, DoEnter(s, t))
  {
    assert Grows(s.flights, DoEnter(s, t).flights);
    SourcesKeep(c, s, DoEnter(s, t));
  }

  lemma FlightsRegister(c: Params, s: State, t: nat)
    requires Inv(c, s) && Enabled(c, s, Enter(t))
    requires !Fresh(s.cache, s.threads[t].key, s.threads[t].phase.now) && s.threads[t].key !in s.inflight
    ensures FlightsSound(DoEnter(s, t)) && InflightSound(DoEnter(s, t))
  {
    var n := |s.flights|;
    var s' := DoEnter(s, t);
    assert ThreadSound(c, s, t);
    CountAppend(s.flights, s'.flights[n]);
    forall f | 0 <= f < |s'.flights| ensures FlightSound(s', f) {
      if f < n { assert FlightSound(s, f); }
    }
  }

  lemma ThreadsRegister(c: Params, s: State, t: nat)
    requires Inv(c, s) && Enabled(c, s, Enter(t))
    requires !Fresh(s.cache, s.threads[t].key, s.threads[t].phase.now) && s.threads[t].key !in s.inflight
    ensures ThreadsSound(c, DoEnter(s, t))
  {
    var s' := DoEnter(s, t);
    assert Grows(s.flights, s'.flights);
    forall u | u in s'.threads ensures ThreadSound(c, s', u) {
      assert ThreadSound(c, s, u);
      if u != t { ThreadKeeps(c, s, s', u); }
    }
  }

  lemma SourcesKeep(c: Params, s: State, s': State)
    requires CacheSound(c, s) && s'.cache == s.cache && Grows(s.flights, s'.flights)
    ensures CacheSound(c, s')
  {}

  lemma SlotsKeep(s: State, s': State)
    requires SlotsSound(s) && s'.clock == s.clock && s'.groups == s.groups && s'.threads.Keys == s.threads.Keys
    requires forall u :: u in s.threads ==>
               && s'.threads[u].group == s.threads[u].group
               && HoldsSlot(s'.threads[u].phase) == HoldsSlot(s.threads[u].phase)
    ensures SlotsSound(s')
  {
    forall g | g in s'.groups ensures |Held(s', g)| <= PROBE_CONCURRENCY {
      assert Held(s', g) == Held(s, g);
    }
  }

  lemma InvPublish(c: Params, s: State, t: nat, victim: string)
    requires Inv(c, s) && Enabled(c, s, Publish(t, victim))
    ensures Inv(c, DoPublish(c, s, t, victim))
  {
    FlightsPublish(c, s, t, victim);
    ThreadsPublish(c, s, t, victim);
    InvPublishCache(c, s, t, victim);
    SlotsPublish(c, s, t, victim);
  }

  lemma SlotsPublish(c: Params, s: State, t: nat, victim: string)
    requires SlotsSound(s) && Enabled(c, s, Publish(t, victim))
    ensures SlotsSound(DoPublish(c, s, t, victim))
  {
    SlotsKeep(s, DoPublish(c, s, t, victim));
  }

  lemma FlightsPublish(c: Params, s: State, t: nat, victim: string)
    requires Inv(c, s) && Enabled(c, s, Publish(t, victim))
    ensures FlightsSound(DoPublish(c, s, t, victim)) && InflightSound(DoPublish(c, s, t, victim))
  {
    var p := s.threads[t].phase;
    var s' := DoPublish(c, s, t, victim);
    assert ThreadSound(c, s, t) && FlightSound(s, p.flight);
    CountUpdate(s.flights, p.flight, s'.flights[p.flight]);
    forall f | 0 <= f < |s'.flights| ensures FlightSound(s', f) { assert FlightSound(s, f); }
    InflightPublish(c, s, t, victim);
  }

  lemma InflightPublish(c: Params, s: State, t: nat, victim: string)
    requires Inv(c, s) && Enabled(c, s, Publish(t, victim))
    ensures InflightSound(DoPublish(c, s, t, victim))
  {}

  lemma ThreadsPublish(c: Params, s: State, t: nat, victim: string)
    requires Inv(c, s) && Enabled(c, s, Publish(t, victim))
    ensures ThreadsSound(c, DoPublish(c, s, t, victim))
  {
    var key, p := s.threads[t].key, s.threads[t].phase;
    var s' := DoPublish(c, s, t, victim);
    assert ThreadSound(c, s, t);
    assert Grows(s.flights, s'.flights);
    forall u | u in s'.threads ensures ThreadSound(c, s', u) {
      assert ThreadSound(c, s, u);
      if u == t {
        assert Backs(c, s'.flights[p.flight], key, p.now, p.res);
      } else {
        ThreadKeeps(c, s, s', u);
      }
    }
  }

  lemma InvPublishCache(c: Params, s: State, t: nat, victim: string)
    requires Inv(c, s) && Enabled(c, s, Publish(t, victim))
    ensures CacheSound(c, DoPublish(c, s, t, victim))
  {
    var key, p := s.threads[t].key, s.threads[t].phase;
    var s' := DoPublish(c, s, t, victim);
    assert ThreadSound(c, s, t);
    CacheStaysBounded(c.ttl, s.cache, key, p.now, p.res, victim);
    forall k | k in s'.cache ensures exists f :: 0 <= f < |s'.flights| && Sources(c, s'.flights[f], k, s'.cache[k]) {
      if c.ttl > 0 && k == key {
        assert Sources(c, s'.flights[p.flight], k, s'.cache[k]);
      } else {
        assert k in s.cache && s'.cache[k] == s.cache[k];
        var f :| 0 <= f < |s.flights| && Sources(c, s.flights[f], k, s.cache[k]);
        assert Sources(c, s'.flights[f], k, s'.cache[k]);
      }
    }
  }

  lemma InvWake(c: Params, s: State, t: nat)
    requires Inv(c, s) && Enabled(c, s, Wake(t))
    ensures Inv(c, Do(c, s, Wake(t)))
  {
    var p := s.threads[t].phase;
    assert ThreadSound(c, s, t);
    assert Backs(c, s.flights[p.flight], s.threads[t].key, p.now, s.flights[p.flight].outcome.res);
    InvMove(c, s, t, Returned(p.acq, p.now, s.flights[p.flight].outcome.res));
  }

  lemma InvLocal(c: Params, s: State, step: Step)
    requires Inv(c, s) && Enabled(c, s, step)
    requires step.Acquire? || step.Call? || step.DialEnds? || step.Release?
    ensures Inv(c, Do(c, s, step))
  {
    var p := s.threads[step.t].phase;
    assert ThreadSound(c, s, step.t);
    match step
    case Acquire(t) => InvMove(c, s, t, Slotted(s.clock));
    case Call(t) => InvMove(c, s, t, Called(p.acq, s.clock));
    case DialEnds(t, res) => InvMove(c, s, t, Dialed(p.acq, p.now, p.flight, res));
    case Release(t) => InvMove(c, s, t, Finished(p.acq, p.now, p.res, s.clock));
  }

  /** Every step of every thread keeps the invariant. */
  lemma InvStep(c: Params, s: State, step: Step)
    requires Inv(c, s) && Enabled(c, s, step)
    ensures Inv(c, Do(c, s, step))
  {
    match step
    case Tick(d) => InvTick(c, s, d);
    case Spawn(g, workers) => InvSpawn(c, s, g, workers);
    case Enter(t) => InvEnter(c, s, t);
    case Publish(t, victim) => InvPublish(c, s, t, victim);
    case Wake(t) => InvWake(c, s, t);
    case _ => InvLocal(c, s, step);
  }

  lemma {:induction false} InvRun(c: Params, s: State, steps: seq<Step>)
    requires Inv(c, s) && Legal(c, s, steps)
    ensures Inv(c, Exec(c, s, steps))
    decreases |steps|
  {
    if steps != [] {
      InvStep(c, s, steps[0]);
      InvRun(c, Do(c, s, steps[0]), steps[1..]);
    }
  }

}
