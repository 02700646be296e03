/** Runs of the engine that show what its promises leave open: how many override answers outlive a
    reload, and how a query that falls back to DoH is counted. */
module EngineWitnesses {
  import opened Prelude
  import opened Text
  import opened Messages
  import opened CacheKey
  import opened Engine
  import opened EngineRuns
  import Matcher

  /** Some run from the start ends in this state. */
  ghost predicate Reaches(names: Names, cfg: Config, s: State) {
    exists steps :: Legal(names, Init(cfg), steps) && Exec(names, Init(cfg), steps) == s
  }

  lemma {:induction false} ExecAppend(names: Names, s: State, steps: seq<Step>, step: Step)
    requires Legal(names, s, steps) && Enabled(names, Exec(names, s, steps), step)
    ensures Legal(names, s, steps + [step])
    ensures Exec(names, s, steps + [step]) == Do(names, Exec(names, s, steps), step)
    decreases |steps|
  {
    if steps == [] {
      assert [step][1..] == [] && steps + [step] == [step];
    } else {
      assert (steps + [step])[1..] == steps[1..] + [step];
      ExecAppend(names, Do(names, s, steps[0]), steps[1..], step);
    }
  }

  lemma ReachNext(names: Names, cfg: Config, s: State, step: Step) returns (u: State)
    requires Reaches(names, cfg, s) && Enabled(names, s, step)
    ensures u == Do(names, s, step) && Reaches(names, cfg, u)
  {
    var steps :| Legal(names, Init(cfg), steps) && Exec(names, Init(cfg), steps) == s;
    ExecAppend(names, Init(cfg), steps, step);
    u := Do(names, s, step);
  }

  lemma ReachInit(names: Names, cfg: Config)
    ensures Reaches(names, cfg, Init(cfg))
  {
    assert Exec(names, Init(cfg), []) == Init(cfg);
  }

  // ---- any number of override answers outlive a reload ----

  const BLANK := Msg(0, 0, false, [], [], [], [])

  function NameOfLength(i: nat): string {
    seq(i, _ => 'a')
  }

  /** The i-th query asks for the name of i letters. */
  function Nth(i: nat): Request {
    Request(0, [Question(NameOfLength(i), 1, 1)], false)
  }

  function NthKey(names: Names, i: nat): string {
    Key(names, Nth(i).questions[0])
  }

  function NthResponse(i: nat): Msg {
    Finalize(Nth(i), BLANK)
  }

  /** n queries have read an override answer, and nothing has been stored. */
  predicate Poised(s: State, cfg: Config, n: nat) {
    && s.configs == [cfg] && s.fields == At(0) && s.overrides == 0 && s.cache == map[] && s.pendingFlushes == 0
    && (forall t :: t in s.threads ==> t < n)
    && (forall i :: 0 <= i < n ==>
          i in s.threads && s.threads[i] == Query(Nth(i), Overridden(0, NthResponse(i))))
  }

  lemma {:induction false} CanPoise(names: Names, cfg: Config, n: nat) returns (s: State)
    ensures Reaches(names, cfg, s) && Poised(s, cfg, n)
  {
    if n == 0 {
      ReachInit(names, cfg);
      s := Init(cfg);
    } else {
      var s0 := CanPoise(names, cfg, n - 1);
      s := ReachNext(names, cfg, s0, Arrive(n - 1, Nth(n - 1)));
      s := ReachNext(names, cfg, s, CheckQuestions(n - 1));
      s := OverrideRead(names, cfg, s, n - 1);
    }
  }

  lemma OverrideRead(names: Names, cfg: Config, s0: State, t: nat) returns (s: State)
    requires Reaches(names, cfg, s0) && t in s0.threads && s0.threads[t] == Query(Nth(t), Keyed)
    ensures Reaches(names, cfg, s)
    ensures s == s0.(threads := s0.threads[t := Query(Nth(t), Overridden(s0.overrides, NthResponse(t)))],
                     count := s.count)
  {
    s := ReachNext(names, cfg, s0, CacheGet(t, false, 1));
    s := ReachNext(names, cfg, s, ReadOverrides(t, Some(BLANK)));
  }

  /** After the reload and its flush the first k of n queries have stored. */
  predicate Storing(names: Names, s: State, cfg: Config, next: Config, n: nat, k: nat) {
    && s.configs == [cfg, next] && s.fields == At(1) && s.pendingFlushes == 0
    && (forall i :: k <= i < n ==>
          i in s.threads && s.threads[i] == Query(Nth(i), Overridden(0, NthResponse(i))))
    && s.cache.Keys == KeysBelow(names, k)
    && (forall key :: key in s.cache ==> s.cache[key].gen == 0 && !s.cache[key].routed)
  }

  function KeysBelow(names: Names, k: nat): set<string> {
    set i | 0 <= i < k :: NthKey(names, i)
  }

  lemma KeyLength(names: Names, i: nat)
    ensures |NthKey(names, i)| == i + |NameOf(names.types, 1)| + |NameOf(names.classes, 1)| + 2
  {}

  lemma {:induction false} KeysCount(names: Names, k: nat)
    ensures |KeysBelow(names, k)| == k
  {
    if k > 0 {
      KeysCount(names, k - 1);
      forall i | 0 <= i < k - 1
        ensures NthKey(names, i) != NthKey(names, k - 1)
      {
        KeyLength(names, i);
        KeyLength(names, k - 1);
      }
      KeysNext(names, k);
    }
  }

  lemma KeysNext(names: Names, k: nat)
    requires k > 0
    ensures KeysBelow(names, k) == KeysBelow(names, k - 1) + {NthKey(names, k - 1)}
  {}

  lemma OneStores(names: Names, s: State, t: nat)
    requires t in s.threads && s.threads[t] == Query(Nth(t), Overridden(0, NthResponse(t)))
    ensures Enabled(names, s, StoreOverride(t, true))
    ensures var u := Do(names, s, StoreOverride(t, true));
            && u.configs == s.configs && u.fields == s.fields && u.pendingFlushes == s.pendingFlushes
            && u.threads == s.threads[t := Query(Nth(t), Done(Override(NthResponse(t))))]
            && u.cache == s.cache[NthKey(names, t) := Entry(NthResponse(t), 0, false, t)]
  {}

  lemma OneMoreStored(names: Names, cfg: Config, next: Config, s: State, u: State, n: nat, k: nat)
    requires 0 < k <= n && Storing(names, s, cfg, next, n, k - 1)
    requires u.configs == s.configs && u.fields == s.fields && u.pendingFlushes == s.pendingFlushes
    requires u.threads == s.threads[k - 1 := Query(Nth(k - 1), Done(Override(NthResponse(k - 1))))]
    requires u.cache == s.cache[NthKey(names, k - 1) := Entry(NthResponse(k - 1), 0, false, k - 1)]
    ensures Storing(names, u, cfg, next, n, k)
  {
    KeysNext(names, k);
    assert u.cache.Keys == s.cache.Keys + {NthKey(names, k - 1)};
  }

  lemma {:induction false} CanStore(names: Names, cfg: Config, next: Config, s0: State, n: nat, k: nat)
    returns (s: State)
    requires Reaches(names, cfg, s0) && Storing(names, s0, cfg, next, n, 0) && k <= n
    ensures Reaches(names, cfg, s) && Storing(names, s, cfg, next, n, k)
    decreases k
  {
    if k == 0 {
      s := s0;
    } else {
      var s1 := CanStore(names, cfg, next, s0, n, k - 1);
      OneStores(names, s1, k - 1);
      s := ReachNext(names, cfg, s1, StoreOverride(k - 1, true));
      OneMoreStored(names, cfg, next, s1, s, n, k);
    }
  }

  /** For every n some run leaves n old override answers in the cache after a reload and its flush, with
      no token taken by anybody. */
  lemma StaleOverridesUnbounded(names: Names, cfg: Config, next: Config, n: nat) returns (u: State)
    requires Matcher.AllValid(next.polluted)
    ensures Reaches(names, cfg, u) && u.configs == [cfg, next] && u.pendingFlushes == 0
    ensures |Stale(u, 1, false)| == n && u.fields.cfg == 1
  {
    var s := CanPoise(names, cfg, n);
    s := ReachNext(names, cfg, s, Swap(next));
    s := ReachNext(names, cfg, s, ReloadFlush);
    assert KeysBelow(names, 0) == {};
    u := CanStore(names, cfg, next, s, n, n);
    assert Stale(u, 1, false) == u.cache.Keys;
    KeysCount(names, n);
  }

  // ---- a query counted under two routes ----

  /** One query, its system upstreams dead, answered by DoH: the counters say one system query and one
      DoH query. */
  lemma DohFallbackCountedTwice(names: Names, req: Request, body: Msg, probe: Probe) returns (u: State)
    requires |req.questions| == 1
    ensures Reaches(names, Config(false, [], false, true, probe), u) && Quiescent(u)
    ensures u.count.queries == 1 && u.count.system == 1 && u.count.doh == 1 && u.count.dohFallbacks == 1
  {
    var cfg := Config(false, [], false, true, probe);
    ReachInit(names, cfg);
    var s := ReachNext(names, cfg, Init(cfg), Arrive(0, req));
    s := ReachNext(names, cfg, s, CheckQuestions(0));
    s := ReachNext(names, cfg, s, CacheGet(0, false, 1));
    s := ReachNext(names, cfg, s, ReadOverrides(0, None));
    assert s.threads == map[0 := Query(req, Unmatched)] && s.count.queries == 1 && s.configs == [cfg];
    u := Routed(names, cfg, req, body, s);
  }

  /** Nothing goes to DoH but what the system upstreams fail to answer. */
  predicate OnlyDohLeft(cfg: Config) {
    !cfg.full && cfg.polluted == [] && !cfg.hasFallback && cfg.fallbackToDoh
  }

  lemma Routed(names: Names, cfg: Config, req: Request, body: Msg, s0: State) returns (u: State)
    requires OnlyDohLeft(cfg) && Reaches(names, cfg, s0) && |req.questions| == 1
    requires s0.threads == map[0 := Query(req, Unmatched)] && s0.configs == [cfg] && s0.fields == At(0)
    ensures Reaches(names, cfg, u) && Quiescent(u) && u.count.queries == s0.count.queries
    ensures u.count.system == s0.count.system + 1 && u.count.doh == s0.count.doh + 1
    ensures u.count.dohFallbacks == s0.count.dohFallbacks + 1
  {
    assert Those(s0.threads, Holding) == {};
    var s := ReachNext(names, cfg, s0, TryAcquire(0));
    NothingPolluted(cfg, req.questions[0].name);
    s := ReachNext(names, cfg, s, TakeSnapshot(0));
    u := FallenBack(names, cfg, req, body, s);
  }

  lemma NothingPolluted(cfg: Config, name: string)
    requires !cfg.full && cfg.polluted == []
    ensures !ViaDoh([cfg], At(0), name) && !Matcher.Matches(Matcher.Parsed(cfg.polluted), name)
  {
    assert Matcher.Parsed([]) == Matcher.Patterns({}, {}, false);
  }

  lemma FallenBack(names: Names, cfg: Config, req: Request, body: Msg, s0: State) returns (u: State)
    requires OnlyDohLeft(cfg) && Reaches(names, cfg, s0) && |req.questions| == 1
    requires s0.threads == map[0 := Query(req, Exchanging(At(0), System))] && s0.configs == [cfg]
    ensures Reaches(names, cfg, u) && Quiescent(u)
    ensures u.count == s0.count.(doh := s0.count.doh + 1, dohFallbacks := s0.count.dohFallbacks + 1)
  {
    assert NextLeg([cfg], At(0), System) == Some(DohFallback);
    var s := ReachNext(names, cfg, s0, ExchangeFails(0));
    assert s.threads[0] == Query(req, Exchanging(At(0), DohFallback));
    NothingPolluted(cfg, req.questions[0].name);
    s := ReachNext(names, cfg, s, ExchangeOk(0, body, Probes([], [])));
    s := ReachNext(names, cfg, s, Put(0, false));
    u := ReachNext(names, cfg, s, Release(0));
  }
}
