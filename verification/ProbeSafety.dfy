/** What every run of the prober keeps: one dial per address at a time, one result for all who
    share it, no needless redial, no lost wake-up, no deadlock. */
module ProbeSafety {
  import opened Prelude
  import opened Probing

  /** No two threads ever dial the same address at once. */
  lemma AtMostOneDial(c: Params, steps: seq<Step>, t: nat, u: nat)
    requires Legal(c, INIT, steps)
    requires var s := Exec(c, INIT, steps);
             && t in s.threads && u in s.threads && s.threads[t].key == s.threads[u].key
             && (s.threads[t].phase.Dialing? || s.threads[t].phase.Dialed?)
             && (s.threads[u].phase.Dialing? || s.threads[u].phase.Dialed?)
    ensures t == u
  {
    var s := Exec(c, INIT, steps);
    InvRun(c, INIT, steps);
    assert ThreadSound(c, s, t) && ThreadSound(c, s, u);
    assert FlightSound(s, s.threads[t].phase.flight) && FlightSound(s, s.threads[u].phase.flight);
  }

  /** The counters and the cache: `checks` is the number of published dials, the cache keeps its
      bound, and every result a caller got or would get from it comes from a dial of its address. */
  lemma RunSound(c: Params, steps: seq<Step>)
    requires Legal(c, INIT, steps)
    ensures var s := Exec(c, INIT, steps);
            && s.checks == CountDone(s.flights)
            && |s.cache| <= CACHE_MAX_ENTRIES
            && (forall g :: g in s.groups ==> |Held(s, g)| <= PROBE_CONCURRENCY)
            && (forall t :: t in s.threads && s.threads[t].phase.Finished? ==>
                  Justified(c, s.flights, s.threads[t].key, s.threads[t].phase.now, s.threads[t].phase.res))
  {
    var s := Exec(c, INIT, steps);
    InvRun(c, INIT, steps);
    forall t | t in s.threads && s.threads[t].phase.Finished?
      ensures Justified(c, s.flights, s.threads[t].key, s.threads[t].phase.now, s.threads[t].phase.res)
    {
      assert ThreadSound(c, s, t);
    }
  }

  // ---- one result for everybody on a flight ----

  /** t dials flight f, waits for it, or has left with the result published on it. */
  predicate TiedTo(s: State, t: nat, f: nat) {
    && t in s.threads && f < |s.flights|
    && var p := s.threads[t].phase;
       || Dials(p, f)
       || (p.Waiting? && p.flight == f)
       || ((p.Returned? || p.Finished?) && s.flights[f].outcome.Done? && p.res == s.flights[f].outcome.res)
  }

  lemma TiedPublish(c: Params, s: State, own: nat, victim: string, t: nat, f: nat)
    requires Inv(c, s) && Enabled(c, s, Publish(own, victim)) && TiedTo(s, t, f)
    ensures TiedTo(DoPublish(c, s, own, victim), t, f)
  {}

  lemma TiedStep(c: Params, s: State, step: Step, t: nat, f: nat)
    requires Inv(c, s) && Enabled(c, s, step) && TiedTo(s, t, f)
    ensures TiedTo(Do(c, s, step), t, f)
  {
    if step.Publish? {
      TiedPublish(c, s, step.t, step.victim, t, f);
    } else {
      TiedElsewhere(c, s, step, t, f);
    }
  }

  lemma TiedElsewhere(c: Params, s: State, step: Step, t: nat, f: nat)
    requires Enabled(c, s, step) && !step.Publish? && TiedTo(s, t, f)
    ensures TiedTo(Do(c, s, step), t, f)
  {}

  /** Whoever dials or joins flight f returns exactly the result published on f. */
  lemma {:induction false} SharedResult(c: Params, s: State, steps: seq<Step>, t: nat, f: nat)
    requires Inv(c, s) && Legal(c, s, steps) && TiedTo(s, t, f)
    ensures TiedTo(Exec(c, s, steps), t, f)
    decreases |steps|
  {
    if steps != [] {
      TiedStep(c, s, steps[0], t, f);
      InvStep(c, s, steps[0]);
      SharedResult(c, Do(c, s, steps[0]), steps[1..], t, f);
    }
  }

  // ---- dials of one address over the whole history ----

  function Addresses(flights: seq<Flight>): set<string> {
    set f | 0 <= f < |flights| :: flights[f].key
  }

  /** Dials of one address never overlap; the next one starts after the previous was published. */
  predicate Serial(s: State) {
    forall f, g :: 0 <= f < g < |s.flights| && s.flights[f].key == s.flights[g].key ==>
      s.flights[f].outcome.Done? && s.flights[f].outcome.at <= s.flights[g].start
  }

  predicate DonePast(s: State) {
    forall f :: 0 <= f < |s.flights| && s.flights[f].outcome.Done? ==>
      s.flights[f].start <= s.flights[f].outcome.at <= s.clock
  }

  lemma SerialEnter(c: Params, s: State, t: nat)
    requires Inv(c, s) && Enabled(c, s, Enter(t)) && Serial(s) && DonePast(s)
    ensures Serial(DoEnter(s, t)) && DonePast(DoEnter(s, t))
  {
    var key := s.threads[t].key;
    if !Fresh(s.cache, key, s.threads[t].phase.now) && key !in s.inflight {
      forall f | 0 <= f < |s.flights| && s.flights[f].key == key ensures s.flights[f].outcome.Done? {
        assert FlightSound(s, f);
      }
    }
  }

  lemma SerialPublish(c: Params, s: State, t: nat, victim: string)
    requires Inv(c, s) && Enabled(c, s, Publish(t, victim)) && Serial(s) && DonePast(s)
    ensures Serial(DoPublish(c, s, t, victim)) && DonePast(DoPublish(c, s, t, victim))
  {
    var n := s.threads[t].phase.flight;
    assert ThreadSound(c, s, t);
    assert FlightSound(s, n);
    SerialUpdate(s, DoPublish(c, s, t, victim), n);
  }

  /** Ending the pending dial n now: by seriality it is the last one of its address. */
  lemma SerialUpdate(s: State, u: State, n: nat)
    requires Serial(s) && DonePast(s) && n < |s.flights| && s.flights[n].outcome.Pending?
    requires |u.flights| == |s.flights| && u.clock == s.clock
    requires u.flights[n].outcome.Done? && u.flights[n].outcome.at == s.clock
    requires u.flights[n].key == s.flights[n].key && u.flights[n].start == s.flights[n].start <= s.clock
    requires forall f :: 0 <= f < |s.flights| && f != n ==> u.flights[f] == s.flights[f]
    ensures Serial(u) && DonePast(u)
  {}

  /** Outside the two critical sections neither the dials nor the cache change. */
  lemma QuietStep(c: Params, s: State, step: Step)
    requires Enabled(c, s, step) && !step.Enter? && !step.Publish?
    ensures var u := Do(c, s, step); u.flights == s.flights && u.cache == s.cache && u.clock >= s.clock
  {}

  lemma SerialStep(c: Params, s: State, step: Step)
    requires Inv(c, s) && Enabled(c, s, step) && Serial(s) && DonePast(s)
    ensures Serial(Do(c, s, step)) && DonePast(Do(c, s, step))
  {
    match step
    case Enter(t) => SerialEnter(c, s, t);
    case Publish(t, victim) => SerialPublish(c, s, t, victim);
    case _ => QuietStep(c, s, step);
  }

  lemma {:induction false} DialsOfOneAddressAreSerial(c: Params, s: State, steps: seq<Step>)
    requires Inv(c, s) && Legal(c, s, steps) && Serial(s) && DonePast(s)
    ensures Serial(Exec(c, s, steps)) && DonePast(Exec(c, s, steps))
    decreases |steps|
  {
    if steps != [] {
      SerialStep(c, s, steps[0]);
      InvStep(c, s, steps[0]);
      DialsOfOneAddressAreSerial(c, Do(c, s, steps[0]), steps[1..]);
    }
  }

  /** Every published dial still answers from the cache, and every later dial of its address was
      asked for by a caller whose `now` is a whole cache lifetime later. */
  predicate Economical(c: Params, s: State) {
    && (forall f :: 0 <= f < |s.flights| && s.flights[f].outcome.Done? ==>
          s.flights[f].key in s.cache && s.cache[s.flights[f].key].expires >= s.flights[f].now + c.ttl)
    && (forall f, g :: 0 <= f < g < |s.flights| && s.flights[f].key == s.flights[g].key ==>
          s.flights[f].outcome.Done? && s.flights[g].now >= s.flights[f].now + c.ttl)
  }

  /** The cache has room for all addresses, so a store drops nothing. */
  lemma NothingEvicted(c: Params, s: State, t: nat, victim: string)
    requires Inv(c, s) && Enabled(c, s, Publish(t, victim))
    requires |Addresses(s.flights)| <= CACHE_MAX_ENTRIES
    ensures MakeRoom(s.cache, s.threads[t].key, s.threads[t].phase.now, victim) == s.cache
  {
    var key := s.threads[t].key;
    assert ThreadSound(c, s, t);
    if key !in s.cache {
      forall k | k in s.cache.Keys ensures k in Addresses(s.flights) - {key} {
        var f :| 0 <= f < |s.flights| && Sources(c, s.flights[f], k, s.cache[k]);
      }
      assert key in Addresses(s.flights);
      SubsetSize(s.cache.Keys, Addresses(s.flights) - {key});
    }
  }

  lemma EconomicalPublish(c: Params, s: State, t: nat, victim: string)
    requires c.ttl > 0 && Enabled(c, s, Publish(t, victim)) && Economical(c, s)
    requires OwnsFlight(s, t, s.threads[t].phase.flight, s.threads[t].phase.now)
    requires MakeRoom(s.cache, s.threads[t].key, s.threads[t].phase.now, victim) == s.cache
    ensures Economical(c, DoPublish(c, s, t, victim))
  {}

  /** Whoever finds neither a fresh entry nor a flight comes a lifetime after every dial so far. */
  lemma RegistersLate(c: Params, s: State, t: nat)
    requires Inv(c, s) && Enabled(c, s, Enter(t)) && Economical(c, s)
    requires !Fresh(s.cache, s.threads[t].key, s.threads[t].phase.now) && s.threads[t].key !in s.inflight
    ensures forall f :: 0 <= f < |s.flights| && s.flights[f].key == s.threads[t].key ==>
              s.flights[f].outcome.Done? && s.threads[t].phase.now >= s.flights[f].now + c.ttl
  {
    forall f | 0 <= f < |s.flights| && s.flights[f].key == s.threads[t].key
      ensures s.flights[f].outcome.Done? && s.threads[t].phase.now >= s.flights[f].now + c.ttl
    {
      assert FlightSound(s, f);
    }
  }

  lemma EconomicalRegister(c: Params, s: State, u: State, fl: Flight)
    requires Economical(c, s) && u.flights == s.flights + [fl] && u.cache == s.cache && fl.outcome.Pending?
    requires forall f :: 0 <= f < |s.flights| && s.flights[f].key == fl.key ==>
               s.flights[f].outcome.Done? && fl.now >= s.flights[f].now + c.ttl
    ensures Economical(c, u)
  {}

  lemma EconomicalEnter(c: Params, s: State, t: nat)
    requires Inv(c, s) && Enabled(c, s, Enter(t)) && Economical(c, s)
    ensures Economical(c, DoEnter(s, t))
  {
    var key, p, u := s.threads[t].key, s.threads[t].phase, DoEnter(s, t);
    if !Fresh(s.cache, key, p.now) && key !in s.inflight {
      RegistersLate(c, s, t);
      EconomicalRegister(c, s, u, Flight(key, t, p.now, s.clock, Pending));
    } else {
      assert u.flights == s.flights && u.cache == s.cache;
    }
  }

  lemma EconomicalPublishes(c: Params, s: State, t: nat, victim: string)
    requires c.ttl > 0 && Inv(c, s) && Enabled(c, s, Publish(t, victim)) && Economical(c, s)
    requires |Addresses(s.flights)| <= CACHE_MAX_ENTRIES
    ensures Economical(c, DoPublish(c, s, t, victim))
  {
    assert ThreadSound(c, s, t);
    NothingEvicted(c, s, t, victim);
    EconomicalPublish(c, s, t, victim);
  }

  lemma EconomicalStep(c: Params, s: State, step: Step)
    requires c.ttl > 0 && Inv(c, s) && Enabled(c, s, step) && Economical(c, s)
    requires |Addresses(s.flights)| <= CACHE_MAX_ENTRIES
    ensures Economical(c, Do(c, s, step))
  {
    match step
    case Enter(t) => EconomicalEnter(c, s, t);
    case Publish(t, victim) => EconomicalPublishes(c, s, t, victim);
    case _ => QuietStep(c, s, step);
  }

  lemma AddressesGrow(c: Params, s: State, step: Step)
    requires Enabled(c, s, step)
    ensures Addresses(s.flights) <= Addresses(Do(c, s, step).flights)
  {
    var fs, fs' := s.flights, Do(c, s, step).flights;
    assert forall f :: 0 <= f < |fs| ==> fs'[f].key == fs[f].key;
    forall k | k in Addresses(fs) ensures k in Addresses(fs') {
      var f :| 0 <= f < |fs| && fs[f].key == k;
      assert fs'[f].key == k;
    }
  }

  lemma {:induction false} AddressesGrowRun(c: Params, s: State, steps: seq<Step>)
    requires Legal(c, s, steps)
    ensures Addresses(s.flights) <= Addresses(Exec(c, s, steps).flights)
    decreases |steps|
  {
    if steps != [] {
      AddressesGrow(c, s, steps[0]);
      AddressesGrowRun(c, Do(c, s, steps[0]), steps[1..]);
    }
  }

  /** With caching on and no more addresses than the cache holds, an address is dialled again only
      for a caller whose `now` is at least one cache lifetime after the `now` of the last dial. */
  lemma {:induction false} RedialOnlyAfterTtl(c: Params, s: State, steps: seq<Step>)
    requires c.ttl > 0 && Inv(c, s) && Legal(c, s, steps) && Economical(c, s)
    requires |Addresses(Exec(c, s, steps).flights)| <= CACHE_MAX_ENTRIES
    ensures Economical(c, Exec(c, s, steps))
    decreases |steps|
  {
    if steps != [] {
      AddressesGrowRun(c, s, steps);
      SubsetSize(Addresses(s.flights), Addresses(Exec(c, s, steps).flights));
      EconomicalStep(c, s, steps[0]);
      InvStep(c, s, steps[0]);
      RedialOnlyAfterTtl(c, Do(c, s, steps[0]), steps[1..]);
    }
  }

  /** Both histories, from the start. */
  lemma HistoryFromStart(c: Params, steps: seq<Step>)
    requires Legal(c, INIT, steps)
    ensures var s := Exec(c, INIT, steps);
            && Serial(s)
            && (c.ttl > 0 && |Addresses(s.flights)| <= CACHE_MAX_ENTRIES ==> Economical(c, s))
  {
    DialsOfOneAddressAreSerial(c, INIT, steps);
    if c.ttl > 0 && |Addresses(Exec(c, INIT, steps).flights)| <= CACHE_MAX_ENTRIES {
      RedialOnlyAfterTtl(c, INIT, steps);
    }
  }

  // ---- progress ----

  predicate Idle(step: Step) {
    step.Tick? || step.Spawn?
  }

  /** A thread that is not waiting for anybody else has its next step enabled. */
  lemma ActiveCanStep(c: Params, s: State, t: nat) returns (step: Step)
    requires Inv(c, s) && t in s.threads
    requires !s.threads[t].phase.Queued? && !s.threads[t].phase.Finished? && !s.threads[t].phase.Waiting?
    ensures !Idle(step) && Enabled(c, s, step)
  {
    assert ThreadSound(c, s, t);
    var p := s.threads[t].phase;
    match p
    case Slotted(_) => step := Call(t);
    case Called(_, _) => step := Enter(t);
    case Dialing(_, _, _) => step := DialEnds(t, Result(false, 0));
    case Dialed(_, now, _, _) =>
      var victim := SomeVictim(c.ttl, s.cache, s.threads[t].key, now);
      step := Publish(t, victim);
    case Returned(_, _, _) => step := Release(t);
  }

  lemma SomeVictim(ttl: int, cache: map<string, CacheEntry>, key: string, now: int) returns (victim: string)
    ensures LegalVictim(ttl, cache, key, now, victim)
  {
    victim := "";
    if ttl > 0 && MustEvict(cache, key, now) {
      victim := Oldest(Swept(cache, now));
    }
  }

  lemma {:induction false} Oldest(cache: map<string, CacheEntry>) returns (k: string)
    requires |cache| > 0
    ensures IsOldest(cache, k)
  {
    k := OldestAmong(cache, cache.Keys);
  }

  lemma {:induction false} OldestAmong(cache: map<string, CacheEntry>, keys: set<string>) returns (k: string)
    requires keys != {} && keys <= cache.Keys
    ensures k in keys && forall j :: j in keys ==> cache[k].inserted <= cache[j].inserted
  {
    k :| k in keys;
    if keys != {k} {
      var j := OldestAmong(cache, keys - {k});
      if cache[j].inserted < cache[k].inserted { k := j; }
    }
  }

  /** No deadlock: while some call is unfinished, some thread can take a step, even when all
      slots are held by threads that wait for somebody else's dial. */
  lemma NoDeadlock(c: Params, steps: seq<Step>, t: nat)
    requires Legal(c, INIT, steps)
    requires t in Exec(c, INIT, steps).threads && !Exec(c, INIT, steps).threads[t].phase.Finished?
    ensures exists step :: Enabled(c, Exec(c, INIT, steps), step) && !Idle(step)
  {
    InvRun(c, INIT, steps);
    var step := SomeStep(c, Exec(c, INIT, steps), t);
  }

  lemma SomeStep(c: Params, s: State, t: nat) returns (step: Step)
    requires Inv(c, s) && t in s.threads && !s.threads[t].phase.Finished?
    ensures !Idle(step) && Enabled(c, s, step)
  {
    assert ThreadSound(c, s, t);
    if s.threads[t].phase.Queued? {
      if |Held(s, s.threads[t].group)| < PROBE_CONCURRENCY {
        step := Acquire(t);
      } else {
        var u :| u in Held(s, s.threads[t].group);
        step := HolderStep(c, s, u);
      }
    } else {
      step := HolderStep(c, s, t);
    }
  }

  /** A slot holder either moves itself or waits for a flight whose owner moves. */
  lemma HolderStep(c: Params, s: State, t: nat) returns (step: Step)
    requires Inv(c, s) && t in s.threads && HoldsSlot(s.threads[t].phase)
    ensures !Idle(step) && Enabled(c, s, step)
  {
    assert ThreadSound(c, s, t);
    if s.threads[t].phase.Waiting? {
      var f := s.threads[t].phase.flight;
      assert FlightSound(s, f);
      if s.flights[f].outcome.Done? {
        step := Wake(t);
      } else {
        step := ActiveCanStep(c, s, s.flights[f].owner);
      }
    } else {
      step := ActiveCanStep(c, s, t);
    }
  }

  function Rank(p: Phase): nat {
    match p
    case Queued => 6
    case Slotted(_) => 5
    case Called(_, _) => 4
    case Dialing(_, _, _) => 3
    case Dialed(_, _, _, _) => 2
    case Waiting(_, _, _) => 2
    case Returned(_, _, _) => 1
    case Finished(_, _, _, _) => 0
  }

  /** The steps the threads can still take, as pairs. */
  function Work(s: State): set<(nat, nat)> {
    set t, i: nat | t in s.threads && i < Rank(s.threads[t].phase) :: (t, i)
  }

  function CountSteps(steps: seq<Step>): nat {
    if steps == [] then 0 else (if Idle(steps[0]) then 0 else 1) + CountSteps(steps[1..])
  }

  lemma WorkShrinks(c: Params, s: State, step: Step)
    requires Enabled(c, s, step) && !Idle(step)
    ensures Work(Do(c, s, step)) < Work(s)
  {
    var t := step.t;
    var s' := Do(c, s, step);
    var r := Rank(s'.threads[t].phase);
    assert r < Rank(s.threads[t].phase);
    assert (t, r) in Work(s) && (t, r) !in Work(s');
    assert forall u :: u in s.threads && u != t ==> s'.threads[u] == s.threads[u];
    forall w | w in Work(s') ensures w in Work(s) {
      assert w.0 in s'.threads && w.1 < Rank(s'.threads[w.0].phase);
      assert w.0 in s.threads && w.1 < Rank(s.threads[w.0].phase);
    }
  }

  lemma SmallerSize<T>(a: set<T>, b: set<T>)
    requires a < b
    ensures |a| + 1 <= |b|
  {
    var x :| x in b && x !in a;
    SubsetSize(a, b - {x});
  }

  /** Every run without new calls is finite: together with NoDeadlock, every maximal one
      finishes every call. */
  lemma {:induction false} RunsEnd(c: Params, s: State, steps: seq<Step>)
    requires Legal(c, s, steps)
    requires forall i :: 0 <= i < |steps| ==> !steps[i].Spawn?
    ensures CountSteps(steps) + |Work(Exec(c, s, steps))| <= |Work(s)|
    decreases |steps|
  {
    if steps != [] {
      var s1 := Do(c, s, steps[0]);
      if Idle(steps[0]) {
        assert Work(s1) == Work(s);
      } else {
        WorkShrinks(c, s, steps[0]);
        SmallerSize(Work(s1), Work(s));
      }
      RunsEnd(c, s1, steps[1..]);
    }
  }
}
