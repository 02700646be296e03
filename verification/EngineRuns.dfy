/** What the engine guarantees over whole runs. */
module EngineRuns {
  import opened Prelude
  import opened Text
  import opened Messages
  import opened CacheKey
  import opened Engine
  import Matcher

  // ---- routing, tokens, counting ----

  /** Whatever reloads come in between, a routed query uses the mode, matcher, upstreams and prober of
      one configuration, and goes to DoH or to a fallback only where that configuration says so. */
  lemma OneGeneration(names: Names, cfg: Config, steps: seq<Step>, t: nat)
    requires Legal(names, Init(cfg), steps)
    ensures var s := Exec(names, Init(cfg), steps);
            t in s.threads && s.threads[t].phase.Exchanging? ==>
              var ph := s.threads[t].phase;
              ph.snap == At(ph.snap.cfg) && RoutedBy(s.configs, ph.snap.cfg, s.threads[t].req, ph.leg)
  {
    InvInit(names, cfg);
    InvRun(names, Init(cfg), steps);
    var s := Exec(names, Init(cfg), steps);
    assert t in s.threads ==> QueryOk(s.configs, s.threads[t]);
  }

  /** At most MAX_INFLIGHT queries are past the semaphore. */
  lemma TokensBounded(names: Names, cfg: Config, steps: seq<Step>)
    requires Legal(names, Init(cfg), steps)
    ensures |Those(Exec(names, Init(cfg), steps).threads, Holding)| <= MAX_INFLIGHT
  {
    InvInit(names, cfg);
    InvRun(names, Init(cfg), steps);
  }

  predicate Quiescent(s: State) {
    forall t :: t in s.threads ==> s.threads[t].phase.Done?
  }

  /** Each counter is the number of queries with that outcome, and the routes make up the rest; DoH
      fallbacks are counted under DoH as well as under system. */
  predicate AddsUp(s: State) {
    var c := s.count;
    && c.queries == |s.threads|
    && c.queries == c.formatErrors + c.hits + c.overrides + c.saturated + c.system + (c.doh - c.dohFallbacks)
    && c.formatErrors == |Those(s.threads, FormatErrors)|
    && c.hits == |Those(s.threads, Hits)|
    && c.overrides == |Those(s.threads, Overrides)|
    && c.saturated == |Those(s.threads, Saturations)|
    && c.failures == |Those(s.threads, Failures)|
    && c.fallback <= c.system && c.dohFallbacks <= c.system
    && c.failures <= c.system + (c.doh - c.dohFallbacks)
  }

  /** When every query has been answered, the counters add up. */
  lemma CountersAtRest(names: Names, cfg: Config, steps: seq<Step>)
    requires Legal(names, Init(cfg), steps)
    requires Quiescent(Exec(names, Init(cfg), steps))
    ensures AddsUp(Exec(names, Init(cfg), steps))
  {
    InvInit(names, cfg);
    InvRun(names, Init(cfg), steps);
    AtRest(Exec(names, Init(cfg), steps));
  }

  lemma AtRest(s: State)
    requires CountersOk(s) && Quiescent(s)
    ensures AddsUp(s)
  {
    NoneUnrouted(s);
    Exactly(s, Everyone);
    Exactly(s, Unrouted);
    Exactly(s, FormatErrors);
    Exactly(s, Hits);
    Exactly(s, Overrides);
    Exactly(s, Saturations);
    Exactly(s, Failures);
    RoomAtRest(s);
  }

  lemma RoomAtRest(s: State)
    requires RoomLeft(s)
    ensures s.count.fallback <= s.count.system && s.count.dohFallbacks <= s.count.system
    ensures s.count.failures <= s.count.system + s.count.doh - s.count.dohFallbacks
  {
    assert |Those(s.threads, OnSystem)| <= Room(s.count, OnSystem);
    assert |Those(s.threads, OnPlain)| <= Room(s.count, OnPlain);
    assert |Those(s.threads, InExchange)| <= Room(s.count, InExchange);
  }

  lemma NoneUnrouted(s: State)
    requires Quiescent(s)
    ensures |Those(s.threads, Unrouted)| == 0 && |Those(s.threads, Everyone)| == |s.threads|
  {
    assert Those(s.threads, Unrouted) == {};
    assert Those(s.threads, Everyone) == s.threads.Keys;
  }

  lemma Exactly(s: State, c: Class)
    requires CountsExact(s) && Tallied(c)
    ensures Tally(s.count, c) == |Those(s.threads, c)|
  {}

  // ---- the cache ----

  /** A cache hit over registered types and classes is the finished response to the same question, up
      to the case of its name, with id, question and TTLs rewritten; and with an OPT record whenever
      the client sent one. */
  lemma HitsAnswerTheQuestion(names: Names, cfg: Config, steps: seq<Step>, t: nat)
    requires WellFormed(names.types) && WellFormed(names.classes)
    requires Legal(names, Init(cfg), steps)
    requires var s := Exec(names, Init(cfg), steps);
             t in s.threads && s.threads[t].phase.Done? && s.threads[t].phase.outcome.Hit?
    ensures var s := Exec(names, Init(cfg), steps);
            var q := s.threads[t];
            var hit := q.phase.outcome;
            && hit.from in s.threads
            && var p := s.threads[hit.from];
            && OneQuestion(q) && OneQuestion(p) && Reply(p.phase).Some?
            && Fits(q.req, hit.resp)
            && var m := Reply(p.phase).value;
            && Fits(p.req, m)
            && hit.resp.extra == (if q.req.edns && !HasOpt(m) then m.extra + [OPT_RECORD] else m.extra)
            && hit.resp.rcode == m.rcode && hit.resp.truncated == m.truncated
            && TtlsSet(m.answer, hit.resp.answer, hit.ttl) && TtlsSet(m.ns, hit.resp.ns, hit.ttl)
            && var a, b := p.req.questions[0], q.req.questions[0];
            && SameLetters(a.name, b.name)
            && SameName(names.types, a.qtype, b.qtype) && SameName(names.classes, a.qclass, b.qclass)
            && (Registered(names, a) && Registered(names, b) ==> a.qtype == b.qtype && a.qclass == b.qclass)
  {
    InvInit(names, cfg);
    InvRun(names, Init(cfg), steps);
    var s := Exec(names, Init(cfg), steps);
    var q := s.threads[t];
    HitIsReply(names, s, t);
    var p := s.threads[q.phase.outcome.from];
    var hit, m := q.phase.outcome, Reply(p.phase).value;
    AgedIsSet(m.answer, hit.resp.answer, hit.ttl);
    AgedIsSet(m.ns, hit.resp.ns, hit.ttl);
    KeysShared(names, p.req.questions[0], q.req.questions[0]);
  }

  lemma HitIsReply(names: Names, s: State, t: nat)
    requires QueriesOk(s) && HitsOk(names, s)
    requires t in s.threads && s.threads[t].phase.Done? && s.threads[t].phase.outcome.Hit?
    ensures var q := s.threads[t];
            var hit := q.phase.outcome;
            && OneQuestion(q) && Fits(q.req, hit.resp)
            && hit.from in s.threads
            && var p := s.threads[hit.from];
            && OneQuestion(p) && KeyOf(names, p) == KeyOf(names, q) && Reply(p.phase).Some?
            && var m := Reply(p.phase).value;
            && Fits(p.req, m) && hit.resp == Finalize(q.req, AgedMsg(m, hit.ttl))
  {}

  // ---- reloads ----

  /** A query that has read the configuration or the override table of a generation before g and has not
      stored its response yet: a routed one, or one with an override answer. */
  predicate IsLate(ph: Phase, g: nat, routed: bool) {
    if routed then (ph.Exchanging? || ph.Answered?) && ph.snap.cfg < g
    else ph.Overridden? && ph.gen < g
  }

  function Late(s: State, g: nat, routed: bool): set<nat> {
    set t | t in s.threads && IsLate(s.threads[t].phase, g, routed)
  }

  /** The keys under which the queries of either kind have stored for generations before g. */
  function Stale(s: State, g: nat, routed: bool): set<string> {
    set key | key in s.cache && s.cache[key].routed == routed && s.cache[key].gen < g
  }

  predicate WrittenBy(s: State, keys: set<string>, authors: set<nat>) {
    forall key :: key in keys ==> key in s.cache && s.cache[key].author in authors
  }

  predicate Flushes(steps: seq<Step>) {
    steps != [] && (steps[0].ReloadFlush? || steps[0].UserFlush? || Flushes(steps[1..]))
  }

  /** Once generation g is there nobody reads an older one: the late queries only get fewer. */
  lemma LateShrinks(names: Names, s: State, step: Step, g: nat, routed: bool)
    requires Uniform(s) && g < |s.configs| && Enabled(names, s, step)
    ensures Late(Do(names, s, step), g, routed) <= Late(s, g, routed)
  {}

  /** A stale entry is new only if a late query of its kind has just stored it. */
  lemma StaleGrows(names: Names, s: State, step: Step, g: nat, routed: bool, key: string)
    requires Enabled(names, s, step) && key in Stale(Do(names, s, step), g, routed)
    ensures var u := Do(names, s, step);
            !step.ReloadFlush? && !step.UserFlush? &&
            ((key in Stale(s, g, routed) && s.cache[key].author == u.cache[key].author)
              || u.cache[key].author in Late(s, g, routed))
  {}

  lemma ConfigsGrow(names: Names, s: State, step: Step)
    requires Enabled(names, s, step)
    ensures |s.configs| <= |Do(names, s, step).configs|
  {}

  lemma {:induction false} StaleRun(names: Names, s: State, steps: seq<Step>, g: nat, routed: bool, late: set<nat>,
                                    flushed: bool)
    requires Inv(names, s) && Legal(names, s, steps) && g < |s.configs|
    requires Late(s, g, routed) <= late
    requires flushed ==> WrittenBy(s, Stale(s, g, routed), late)
    ensures var u := Exec(names, s, steps);
            flushed || Flushes(steps) ==> WrittenBy(u, Stale(u, g, routed), late)
    decreases |steps|
  {
    if steps != [] {
      var step, u := steps[0], Do(names, s, steps[0]);
      ConfigsGrow(names, s, step);
      InvStep(names, s, step);
      LateShrinks(names, s, step, g, routed);
      var nowFlushed := flushed || step.ReloadFlush? || step.UserFlush?;
      forall key | nowFlushed && key in Stale(u, g, routed)
        ensures u.cache[key].author in late
      {
        StaleGrows(names, s, step, g, routed, key);
      }
      StaleRun(names, u, steps[1..], g, routed, late, nowFlushed);
    }
  }

  /** Entries stored under different keys have different authors. */
  lemma {:induction false} KeysBoundedByAuthors(names: Names, s: State, keys: set<string>, authors: set<nat>)
    requires CacheOk(names, s) && WrittenBy(s, keys, authors)
    ensures |keys| <= |authors|
    decreases |keys|
  {
    if keys != {} {
      var key :| key in keys;
      var author := s.cache[key].author;
      forall other | other in keys - {key}
        ensures s.cache[other].author in authors - {author}
      {
        assert EntryOk(names, s.threads, key, s.cache[key]) && EntryOk(names, s.threads, other, s.cache[other]);
      }
      KeysBoundedByAuthors(names, s, keys - {key}, authors - {author});
    }
  }

  /** What is left of the generations before g, told from the state at the swap: every old entry was
      written by a query that at the swap had read its old generation and not stored yet, and the routed
      ones of these held their tokens, so there are at most MAX_INFLIGHT old entries of routed queries. */
  predicate OnlyLateSurvive(s: State, u: State, g: nat) {
    && WrittenBy(u, Stale(u, g, true), Late(s, g, true))
    && WrittenBy(u, Stale(u, g, false), Late(s, g, false))
    && Late(s, g, true) <= Those(s.threads, Holding)
    && |Stale(u, g, true)| <= MAX_INFLIGHT
    && |Stale(u, g, false)| <= |Late(s, g, false)|
  }

  /** Reload safety: after a swap and any flush later on, whatever further reloads come in between. */
  lemma ReloadSafety(names: Names, cfg: Config, before: seq<Step>, next: Config, after: seq<Step>)
    requires Legal(names, Init(cfg), before)
    requires var s := Exec(names, Init(cfg), before);
             Enabled(names, s, Swap(next)) && Legal(names, Do(names, s, Swap(next)), after)
    requires Flushes(after)
    ensures var s := Exec(names, Init(cfg), before);
            OnlyLateSurvive(s, Exec(names, Do(names, s, Swap(next)), after), |s.configs|)
  {
    InvInit(names, cfg);
    InvRun(names, Init(cfg), before);
    AfterSwap(names, Exec(names, Init(cfg), before), next, after);
  }

  lemma AfterSwap(names: Names, s: State, next: Config, after: seq<Step>)
    requires Inv(names, s) && Enabled(names, s, Swap(next)) && Legal(names, Do(names, s, Swap(next)), after)
    requires Flushes(after)
    ensures OnlyLateSurvive(s, Exec(names, Do(names, s, Swap(next)), after), |s.configs|)
  {
    var s1 := Do(names, s, Swap(next));
    var g, u := |s.configs|, Exec(names, s1, after);
    InvStep(names, s, Swap(next));
    InvRun(names, s1, after);
    forall routed: bool
      ensures WrittenBy(u, Stale(u, g, routed), Late(s, g, routed))
      ensures |Stale(u, g, routed)| <= |Late(s, g, routed)|
    {
      assert Late(s1, g, routed) == Late(s, g, routed);
      StaleRun(names, s1, after, g, routed, Late(s, g, routed), false);
      KeysBoundedByAuthors(names, u, Stale(u, g, routed), Late(s, g, routed));
    }
    SubsetSize(Late(s, g, true), Those(s.threads, Holding));
  }

  lemma RunOn(names: Names, s: State, step: Step, rest: seq<Step>)
    requires Enabled(names, s, step) && Legal(names, Do(names, s, step), rest)
    ensures Legal(names, s, [step] + rest)
    ensures Exec(names, s, [step] + rest) == Exec(names, Do(names, s, step), rest)
  {}

  /** Why the bound is about routed queries only: these hold a token while they store. Whenever an
      override answer has been read but not stored yet, a reload can pass it by completely, and the
      answer of the old table stays cached under the new configuration. */
  lemma StaleOverride(names: Names, s: State, t: nat, next: Config)
    requires Inv(names, s) && t in s.threads && s.threads[t].phase.Overridden? && OneQuestion(s.threads[t])
    requires Matcher.AllValid(next.polluted)
    ensures var steps := [Swap(next)] + ([ReloadFlush] + ([StoreOverride(t, true)] + []));
            && Legal(names, s, steps)
            && var u := Exec(names, s, steps);
            && var key := KeyOf(names, s.threads[t]);
            && u.pendingFlushes == s.pendingFlushes && !HoldsToken(s, t)
            && u.cache == map[key := Entry(s.threads[t].phase.resp, s.threads[t].phase.gen, false, t)]
            && u.cache[key].gen < u.fields.cfg
  {
    assert QueryOk(s.configs, s.threads[t]);
    var s1 := Do(names, s, Swap(next));
    var s2 := Do(names, s1, ReloadFlush);
    RunOn(names, s2, StoreOverride(t, true), []);
    RunOn(names, s1, ReloadFlush, [StoreOverride(t, true)] + []);
    RunOn(names, s, Swap(next), [ReloadFlush] + ([StoreOverride(t, true)] + []));
  }

  predicate HoldsToken(s: State, t: nat) {
    t in Those(s.threads, Holding)
  }

  // ---- progress ----

  /** How many steps a query has at most before it. */
  function Rank(ph: Phase): nat {
    match ph
    case Arrived => 11
    case Keyed => 10
    case Missed => 9
    case Unmatched => 8
    case Admitted => 7
    case Exchanging(_, System) => 6
    case Exchanging(_, Fallback) => 5
    case Exchanging(_, _) => 4
    case Answered(_, _) => 3
    case Stored(_, _) => 2
    case Overridden(_, _) => 1
    case Failing => 1
    case Done(_) => 0
  }

  lemma EachStepAdvances(names: Names, s: State, step: Step)
    requires IsQueryStep(step) && !step.Arrive? && Enabled(names, s, step)
    ensures var u := Do(names, s, step);
            step.t in s.threads && step.t in u.threads && Rank(u.threads[step.t].phase) < Rank(s.threads[step.t].phase)
  {}

  /** No query ever waits for another: past its upstream exchange nothing can hold it up. */
  lemma NeverBlocked(names: Names, s: State, t: nat)
    requires Inv(names, s) && t in s.threads && !s.threads[t].phase.Done?
    ensures exists step: Step :: IsQueryStep(step) && !step.Arrive? && step.t == t && Enabled(names, s, step)
  {
    var q := s.threads[t];
    assert QueryOk(s.configs, q);
    var step :=
      match q.phase
      case Arrived => CheckQuestions(t)
      case Keyed => CacheGet(t, false, 1)
      case Missed => ReadOverrides(t, None)
      case Overridden(_, _) => StoreOverride(t, false)
      case Unmatched => TryAcquire(t)
      case Admitted => TakeSnapshot(t)
      case Exchanging(_, _) => ExchangeFails(t)
      case Answered(_, _) => Put(t, false)
      case _ => Release(t);
    assert Enabled(names, s, step);
  }

  function StepsOf(steps: seq<Step>, t: nat): nat {
    if steps == [] then 0
    else StepsOf(steps[1..], t) + (if IsQueryStep(steps[0]) && !steps[0].Arrive? && steps[0].t == t then 1 else 0)
  }

  /** A query that has arrived takes at most eleven steps in any run. */
  lemma {:induction false} QueryEnds(names: Names, s: State, steps: seq<Step>, t: nat)
    requires Legal(names, s, steps) && t in s.threads
    ensures t in Exec(names, s, steps).threads
    ensures StepsOf(steps, t) + Rank(Exec(names, s, steps).threads[t].phase) <= Rank(s.threads[t].phase)
    decreases |steps|
  {
    if steps != [] {
      var step := steps[0];
      if IsQueryStep(step) {
        QueryStepMoves(names, s, step);
        if !step.Arrive? { EachStepAdvances(names, s, step); }
      }
      QueryEnds(names, Do(names, s, step), steps[1..], t);
    }
  }
}
