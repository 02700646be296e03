/** What a query's outcome owes to the steps of the run that led to it: which answer it delivers, which
    upstreams were asked before, and when it was turned away. */
module EngineHistory {
  import opened Prelude
  import opened Messages
  import opened CacheKey
  import opened Engine
  import opened EngineRuns
  import AnswerFilter
  import Matcher

  // ---- what a run of steps says ----

  /** The configurations of a run, oldest first. */
  function ConfigsOf(cfg: Config, steps: seq<Step>): (configs: seq<Config>)
    ensures configs != []
  {
    if steps == [] then [cfg]
    else
      var n := |steps| - 1;
      ConfigsOf(cfg, steps[..n]) + (if steps[n].Swap? then [steps[n].cfg] else [])
  }

  /** The configuration in force when t last took its snapshot. */
  function ConfigOf(cfg: Config, steps: seq<Step>, t: nat): Config {
    if steps == [] then cfg
    else
      var n := |steps| - 1;
      if steps[n] == TakeSnapshot(t) then
        var configs := ConfigsOf(cfg, steps[..n]);
        configs[|configs| - 1]
      else ConfigOf(cfg, steps[..n], t)
  }

  /** How many exchanges of t have failed. */
  function Fails(steps: seq<Step>, t: nat): nat {
    if steps == [] then 0
    else
      var n := |steps| - 1;
      Fails(steps[..n], t) + (if steps[n] == ExchangeFails(t) then 1 else 0)
  }

  predicate IsPolluted(c: Config, name: string) {
    Matcher.Matches(Matcher.Parsed(c.polluted), name)
  }

  /** The upstreams to be asked for a name, in order, until one answers. */
  function Legs(c: Config, name: string): seq<Leg> {
    if c.full || IsPolluted(c, name) then [Doh]
    else
      [System] + (if c.hasFallback then [Fallback] else []) + (if c.fallbackToDoh then [DohFallback] else [])
  }

  // ---- the answer a client gets ----

  /** The additional section that goes out with a message: an OPT record is added for a client that sent
      one when the message has none, and nothing else changes. */
  predicate ExtraFits(req: Request, body: Msg, resp: Msg) {
    if req.edns && (forall i :: 0 <= i < |body.extra| ==> body.extra[i].rtype != TYPE_OPT)
    then resp.extra == body.extra + [OPT_RECORD]
    else resp.extra == body.extra
  }

  /** All of the response but its answer section. */
  predicate Carries(req: Request, body: Msg, resp: Msg) {
    && resp.id == req.id && resp.questions == req.questions
    && resp.rcode == body.rcode && resp.truncated == body.truncated && resp.ns == body.ns
    && ExtraFits(req, body, resp)
  }

  /** The configuration has the answer probed: it is no error and the name is polluted. */
  predicate ProbedUnder(c: Config, req: Request, body: Msg) {
    |req.questions| == 1 && c.probe.enabled && IsPolluted(c, req.questions[0].name) && body.rcode == 0
  }

  /** The response is the upstream's, its addresses reshaped by the prober where c has them probed. */
  predicate Delivers(c: Config, req: Request, body: Msg, probes: Probes, resp: Msg) {
    && Carries(req, body, resp)
    && if ProbedUnder(c, req, body) then
         && AnswerFilter.Probed(body.answer, probes.results4, probes.results6, c.probe.maxIps)
         && resp.answer == AnswerFilter.FilteredAnswer(body.answer, probes.results4, probes.results6,
                                                       c.probe.mode, c.probe.maxIps)
       else resp.answer == body.answer
  }

  /** Some exchange of t ended with a message that resp delivers. */
  ghost predicate FromUpstream(cfg: Config, steps: seq<Step>, t: nat, req: Request, resp: Msg) {
    exists body, probes ::
      ExchangeOk(t, body, probes) in steps && Delivers(ConfigOf(cfg, steps, t), req, body, probes, resp)
  }

  /** t found an override answer that resp delivers. */
  ghost predicate FromOverrides(steps: seq<Step>, t: nat, req: Request, resp: Msg) {
    exists body ::
      ReadOverrides(t, Some(body)) in steps && Carries(req, body, resp) && resp.answer == body.answer
  }

  // ---- the history of one query ----

  predicate SnapshotFits(cfg: Config, steps: seq<Step>, configs: seq<Config>, t: nat, snap: Snapshot) {
    snap == At(snap.cfg) && snap.cfg < |configs| && configs[snap.cfg] == ConfigOf(cfg, steps, t)
  }

  /** The upstreams t is to ask. */
  function LegsOf(cfg: Config, steps: seq<Step>, t: nat, q: Query): seq<Leg>
    requires OneQuestion(q)
  {
    Legs(ConfigOf(cfg, steps, t), q.req.questions[0].name)
  }

  ghost predicate PhaseTraced(cfg: Config, steps: seq<Step>, configs: seq<Config>, t: nat, q: Query) {
    match q.phase
    case Overridden(_, resp) => FromOverrides(steps, t, q.req, resp)
    case Done(Override(resp)) => FromOverrides(steps, t, q.req, resp)
    case Exchanging(snap, leg) =>
      && SnapshotFits(cfg, steps, configs, t, snap) && OneQuestion(q)
      && Fails(steps, t) < |LegsOf(cfg, steps, t, q)| && leg == LegsOf(cfg, steps, t, q)[Fails(steps, t)]
    case Answered(snap, resp) => AnswerTraced(cfg, steps, configs, t, q, snap, resp)
    case Stored(snap, resp) => AnswerTraced(cfg, steps, configs, t, q, snap, resp)
    case Done(Answer(snap, resp)) => AnswerTraced(cfg, steps, configs, t, q, snap, resp)
    case Failing => OneQuestion(q) && Fails(steps, t) == |LegsOf(cfg, steps, t, q)|
    case Done(ServFail) => OneQuestion(q) && Fails(steps, t) == |LegsOf(cfg, steps, t, q)|
    case Done(Hit(_, _, ttl)) => CacheGet(t, true, ttl) in steps
    case Done(_) => true
    case _ => Fails(steps, t) == 0
  }

  ghost predicate AnswerTraced(cfg: Config, steps: seq<Step>, configs: seq<Config>, t: nat, q: Query,
                               snap: Snapshot, resp: Msg) {
    && SnapshotFits(cfg, steps, configs, t, snap) && OneQuestion(q)
    && Fails(steps, t) < |LegsOf(cfg, steps, t, q)| && FromUpstream(cfg, steps, t, q.req, resp)
  }

  /** The request is the one that arrived, and who has asked for a token and is not done holds one. */
  ghost predicate Traced(cfg: Config, steps: seq<Step>, configs: seq<Config>, t: nat, q: Query) {
    && Arrive(t, q.req) in steps
    && (In(Holding, q.phase) <==> TryAcquire(t) in steps && !q.phase.Done?)
    && PhaseTraced(cfg, steps, configs, t, q)
  }

  /** Who has not arrived has taken no step. */
  predicate Untouched(steps: seq<Step>, t: nat) {
    forall i :: 0 <= i < |steps| && IsQueryStep(steps[i]) ==> steps[i].t != t
  }

  ghost predicate History(cfg: Config, steps: seq<Step>, s: State) {
    && s.configs == ConfigsOf(cfg, steps)
    && (forall t :: t in s.threads ==> Traced(cfg, steps, s.configs, t, s.threads[t]))
    && (forall t :: t !in s.threads ==> Untouched(steps, t))
  }

  // ---- one more step ----

  lemma UntouchedMeans(steps: seq<Step>, t: nat)
    requires Untouched(steps, t)
    ensures Fails(steps, t) == 0 && TryAcquire(t) !in steps
    decreases |steps|
  {
    if steps != [] { UntouchedMeans(steps[..|steps| - 1], t); }
  }

  lemma Extended(cfg: Config, steps: seq<Step>, step: Step, t: nat)
    ensures var more := steps + [step];
            && step in more && (forall x :: x in steps ==> x in more)
            && ConfigsOf(cfg, more) == ConfigsOf(cfg, steps) + (if step.Swap? then [step.cfg] else [])
            && Fails(more, t) == Fails(steps, t) + (if step == ExchangeFails(t) then 1 else 0)
            && ConfigOf(cfg, more, t) == if step == TakeSnapshot(t)
                                         then ConfigsOf(cfg, steps)[|ConfigsOf(cfg, steps)| - 1]
                                         else ConfigOf(cfg, steps, t)
  {
    var more := steps + [step];
    assert more[..|steps|] == steps && more[|steps|] == step;
  }

  /** A step of another query, or of none, leaves the history of t. */
  lemma OtherTraced(cfg: Config, steps: seq<Step>, configs: seq<Config>, step: Step, t: nat, q: Query)
    requires Traced(cfg, steps, configs, t, q) && (IsQueryStep(step) ==> step.t != t)
    ensures Traced(cfg, steps + [step], configs + (if step.Swap? then [step.cfg] else []), t, q)
  {
    Extended(cfg, steps, step, t);
    var more := steps + [step];
    assert TryAcquire(t) in more <==> TryAcquire(t) in steps;
    OtherUpstream(cfg, steps, step, t, q);
  }

  lemma OtherUpstream(cfg: Config, steps: seq<Step>, step: Step, t: nat, q: Query)
    requires IsQueryStep(step) ==> step.t != t
    ensures forall resp :: FromUpstream(cfg, steps, t, q.req, resp) ==>
              FromUpstream(cfg, steps + [step], t, q.req, resp)
    ensures forall resp :: FromOverrides(steps, t, q.req, resp) ==> FromOverrides(steps + [step], t, q.req, resp)
  {
    Extended(cfg, steps, step, t);
  }

  /** What a step makes of the query it belongs to. */
  ghost predicate MoverTraced(names: Names, cfg: Config, steps: seq<Step>, s: State, step: Step)
    requires IsQueryStep(step) && Enabled(names, s, step)
  {
    var u := Do(names, s, step);
    step.t in u.threads && Traced(cfg, steps + [step], u.configs, step.t, u.threads[step.t])
  }

  lemma ArriveTraced(names: Names, cfg: Config, steps: seq<Step>, s: State, step: Step)
    requires History(cfg, steps, s) && step.Arrive? && Enabled(names, s, step)
    ensures MoverTraced(names, cfg, steps, s, step)
  {
    assert Untouched(steps, step.t);
    NewTraced(cfg, steps, s.configs, step.t, step.req);
  }

  lemma NewTraced(cfg: Config, steps: seq<Step>, configs: seq<Config>, t: nat, req: Request)
    requires Untouched(steps, t)
    ensures Traced(cfg, steps + [Arrive(t, req)], configs, t, Query(req, Arrived))
  {
    UntouchedMeans(steps, t);
    Extended(cfg, steps, Arrive(t, req), t);
  }

  lemma CheckTraced(names: Names, cfg: Config, steps: seq<Step>, s: State, t: nat)
    requires History(cfg, steps, s) && Enabled(names, s, CheckQuestions(t))
    ensures MoverTraced(names, cfg, steps, s, CheckQuestions(t))
  {
    assert Traced(cfg, steps, s.configs, t, s.threads[t]);
    Extended(cfg, steps, CheckQuestions(t), t);
  }

  lemma GetTraced(names: Names, cfg: Config, steps: seq<Step>, s: State, t: nat, hit: bool, ttl: nat)
    requires History(cfg, steps, s) && Enabled(names, s, CacheGet(t, hit, ttl))
    ensures MoverTraced(names, cfg, steps, s, CacheGet(t, hit, ttl))
  {
    assert Traced(cfg, steps, s.configs, t, s.threads[t]);
    Extended(cfg, steps, CacheGet(t, hit, ttl), t);
  }

  lemma AcquireTraced(names: Names, cfg: Config, steps: seq<Step>, s: State, t: nat)
    requires History(cfg, steps, s) && Enabled(names, s, TryAcquire(t))
    ensures MoverTraced(names, cfg, steps, s, TryAcquire(t))
  {
    assert Traced(cfg, steps, s.configs, t, s.threads[t]);
    Extended(cfg, steps, TryAcquire(t), t);
  }

  lemma OverrideTraced(names: Names, cfg: Config, steps: seq<Step>, s: State, t: nat, found: Option<Msg>)
    requires History(cfg, steps, s) && Enabled(names, s, ReadOverrides(t, found))
    ensures MoverTraced(names, cfg, steps, s, ReadOverrides(t, found))
  {
    var step, q := ReadOverrides(t, found), s.threads[t];
    assert Traced(cfg, steps, s.configs, t, q);
    Extended(cfg, steps, step, t);
    if found.Some? {
      FinalizedCarries(q.req, found.value);
      assert FromOverrides(steps + [step], t, q.req, Finalize(q.req, found.value));
    }
  }

  lemma FinalizedCarries(req: Request, body: Msg)
    ensures Carries(req, body, Finalize(req, body)) && Finalize(req, body).answer == body.answer
  {
    assert HasOpt(body) <==> HasOpt(body.(id := req.id, questions := req.questions));
  }

  lemma StoreOverrideTraced(names: Names, cfg: Config, steps: seq<Step>, s: State, t: nat, cacheable: bool)
    requires History(cfg, steps, s) && Enabled(names, s, StoreOverride(t, cacheable))
    ensures MoverTraced(names, cfg, steps, s, StoreOverride(t, cacheable))
  {
    var q := s.threads[t];
    assert Traced(cfg, steps, s.configs, t, q);
    Extended(cfg, steps, StoreOverride(t, cacheable), t);
    assert FromOverrides(steps + [StoreOverride(t, cacheable)], t, q.req, q.phase.resp);
  }

  /** Moving on with its answer keeps what is known of a query. */
  lemma AnswerKeeps(cfg: Config, steps: seq<Step>, configs: seq<Config>, step: Step, t: nat,
                    before: Query, after: Query)
    requires Traced(cfg, steps, configs, t, before) && before.req == after.req
    requires step == Release(t) || (step.Put? && step.t == t)
    requires before.phase.Answered? || before.phase.Stored?
    requires after.phase == (if step.Put? then Stored(before.phase.snap, before.phase.resp)
                             else Done(Answer(before.phase.snap, before.phase.resp)))
    ensures Traced(cfg, steps + [step], configs, t, after)
  {
    Extended(cfg, steps, step, t);
    assert TryAcquire(t) in steps + [step] <==> TryAcquire(t) in steps;
    assert FromUpstream(cfg, steps + [step], t, before.req, before.phase.resp);
  }

  lemma PutTraced(names: Names, cfg: Config, steps: seq<Step>, s: State, t: nat, cacheable: bool)
    requires History(cfg, steps, s) && Enabled(names, s, Put(t, cacheable))
    ensures MoverTraced(names, cfg, steps, s, Put(t, cacheable))
  {
    var u := Do(names, s, Put(t, cacheable));
    assert u.configs == s.configs && t in u.threads;
    assert Traced(cfg, steps, s.configs, t, s.threads[t]);
    AnswerKeeps(cfg, steps, s.configs, Put(t, cacheable), t, s.threads[t], u.threads[t]);
  }

  lemma ReleaseTraced(names: Names, cfg: Config, steps: seq<Step>, s: State, t: nat)
    requires History(cfg, steps, s) && Enabled(names, s, Release(t))
    ensures MoverTraced(names, cfg, steps, s, Release(t))
  {
    var q, u := s.threads[t], Do(names, s, Release(t));
    assert u.configs == s.configs && t in u.threads;
    assert Traced(cfg, steps, s.configs, t, q);
    if q.phase.Stored? {
      AnswerKeeps(cfg, steps, s.configs, Release(t), t, q, u.threads[t]);
    } else {
      Extended(cfg, steps, Release(t), t);
    }
  }

  lemma SnapshotTraced(names: Names, cfg: Config, steps: seq<Step>, s: State, t: nat)
    requires Inv(names, s) && History(cfg, steps, s) && Enabled(names, s, TakeSnapshot(t))
    ensures MoverTraced(names, cfg, steps, s, TakeSnapshot(t))
  {
    var q := s.threads[t];
    assert Traced(cfg, steps, s.configs, t, q);
    Extended(cfg, steps, TakeSnapshot(t), t);
  }

  /** Where a query goes next is the next upstream of its list. */
  lemma NextIsNext(configs: seq<Config>, snap: Snapshot, name: string, leg: Leg, k: nat)
    requires snap == At(snap.cfg) && snap.cfg < |configs|
    requires k < |Legs(configs[snap.cfg], name)| && leg == Legs(configs[snap.cfg], name)[k]
    ensures var legs := Legs(configs[snap.cfg], name);
            NextLeg(configs, snap, leg) == if k + 1 < |legs| then Some(legs[k + 1]) else None
  {}

  lemma FailTraced(names: Names, cfg: Config, steps: seq<Step>, s: State, t: nat)
    requires History(cfg, steps, s) && Enabled(names, s, ExchangeFails(t))
    ensures MoverTraced(names, cfg, steps, s, ExchangeFails(t))
  {
    var q := s.threads[t];
    assert Traced(cfg, steps, s.configs, t, q);
    Extended(cfg, steps, ExchangeFails(t), t);
    NextIsNext(s.configs, q.phase.snap, q.req.questions[0].name, q.phase.leg, Fails(steps, t));
    FailMoves(names, s, t);
  }

  /** A failed exchange moves on along NextLeg, or gives up. */
  lemma FailMoves(names: Names, s: State, t: nat)
    requires Enabled(names, s, ExchangeFails(t))
    ensures var ph, u := s.threads[t].phase, Do(names, s, ExchangeFails(t));
            var next := NextLeg(s.configs, ph.snap, ph.leg);
            && u.configs == s.configs
            && u.threads == s.threads[t := Query(s.threads[t].req,
                                                 if next.Some? then Exchanging(ph.snap, next.value) else Failing)]
  {}

  lemma AnswerIsTraced(names: Names, cfg: Config, steps: seq<Step>, s: State, t: nat, body: Msg, probes: Probes)
    requires History(cfg, steps, s) && Enabled(names, s, ExchangeOk(t, body, probes))
    ensures MoverTraced(names, cfg, steps, s, ExchangeOk(t, body, probes))
  {
    var step, q := ExchangeOk(t, body, probes), s.threads[t];
    assert Traced(cfg, steps, s.configs, t, q);
    Extended(cfg, steps, step, t);
    var reshaped := Reshaped(s.configs, q.phase.snap, q.req, body, probes);
    FinalizedCarries(q.req, reshaped);
    var resp := Finalize(q.req, reshaped);
    assert Carries(q.req, body, resp);
    assert Delivers(ConfigOf(cfg, steps + [step], t), q.req, body, probes, resp);
    assert FromUpstream(cfg, steps + [step], t, q.req, resp);
  }

  lemma MoverIsTraced(names: Names, cfg: Config, steps: seq<Step>, s: State, step: Step)
    requires Inv(names, s) && History(cfg, steps, s) && IsQueryStep(step) && Enabled(names, s, step)
    ensures MoverTraced(names, cfg, steps, s, step)
  {
    match step
    case Arrive(_, _) => ArriveTraced(names, cfg, steps, s, step);
    case ReadOverrides(t, found) => OverrideTraced(names, cfg, steps, s, t, found);
    case TakeSnapshot(t) => SnapshotTraced(names, cfg, steps, s, t);
    case ExchangeFails(t) => FailTraced(names, cfg, steps, s, t);
    case ExchangeOk(t, body, probes) => AnswerIsTraced(names, cfg, steps, s, t, body, probes);
    case StoreOverride(t, cacheable) => StoreOverrideTraced(names, cfg, steps, s, t, cacheable);
    case Put(t, cacheable) => PutTraced(names, cfg, steps, s, t, cacheable);
    case Release(t) => ReleaseTraced(names, cfg, steps, s, t);
    case CheckQuestions(t) => CheckTraced(names, cfg, steps, s, t);
    case CacheGet(t, hit, ttl) => GetTraced(names, cfg, steps, s, t, hit, ttl);
    case TryAcquire(t) => AcquireTraced(names, cfg, steps, s, t);
  }

  lemma UntouchedNext(names: Names, steps: seq<Step>, s: State, step: Step, t: nat)
    requires Enabled(names, s, step) && t !in Do(names, s, step).threads
    requires t !in s.threads ==> Untouched(steps, t)
    ensures Untouched(steps + [step], t)
  {
    if IsQueryStep(step) { QueryStepMoves(names, s, step); }
  }

  lemma ThreadTraced(names: Names, cfg: Config, steps: seq<Step>, s: State, step: Step, t: nat)
    requires Inv(names, s) && History(cfg, steps, s) && Enabled(names, s, step) && t in Do(names, s, step).threads
    ensures Traced(cfg, steps + [step], Do(names, s, step).configs, t, Do(names, s, step).threads[t])
  {
    if IsQueryStep(step) && step.t == t {
      MoverIsTraced(names, cfg, steps, s, step);
    } else {
      OthersStay(names, s, step, t);
      OtherTraced(cfg, steps, s.configs, step, t, s.threads[t]);
    }
  }

  lemma OthersStay(names: Names, s: State, step: Step, t: nat)
    requires Enabled(names, s, step) && t in Do(names, s, step).threads && (IsQueryStep(step) ==> step.t != t)
    ensures t in s.threads && Do(names, s, step).threads[t] == s.threads[t]
    ensures Do(names, s, step).configs == s.configs + (if step.Swap? then [step.cfg] else [])
  {
    if IsQueryStep(step) { QueryStepMoves(names, s, step); }
  }

  lemma ConfigsNext(names: Names, cfg: Config, steps: seq<Step>, s: State, step: Step)
    requires s.configs == ConfigsOf(cfg, steps) && Enabled(names, s, step)
    ensures Do(names, s, step).configs == ConfigsOf(cfg, steps + [step])
  {
    Extended(cfg, steps, step, 0);
    if IsQueryStep(step) { QueryStepMoves(names, s, step); }
  }

  lemma HistoryStep(names: Names, cfg: Config, steps: seq<Step>, s: State, step: Step)
    requires Inv(names, s) && History(cfg, steps, s) && Enabled(names, s, step)
    ensures History(cfg, steps + [step], Do(names, s, step))
  {
    var u := Do(names, s, step);
    ConfigsNext(names, cfg, steps, s, step);
    forall t | t in u.threads
      ensures Traced(cfg, steps + [step], u.configs, t, u.threads[t])
    {
      ThreadTraced(names, cfg, steps, s, step, t);
    }
    forall t | t !in u.threads
      ensures Untouched(steps + [step], t)
    {
      UntouchedNext(names, steps, s, step, t);
    }
  }

  lemma {:induction false} HistoryRun(names: Names, cfg: Config, past: seq<Step>, s: State, steps: seq<Step>)
    requires Inv(names, s) && History(cfg, past, s) && Legal(names, s, steps)
    ensures History(cfg, past + steps, Exec(names, s, steps))
    decreases |steps|
  {
    if steps == [] {
      assert past + steps == past;
    } else {
      HistoryStep(names, cfg, past, s, steps[0]);
      InvStep(names, s, steps[0]);
      HistoryRun(names, cfg, past + [steps[0]], Do(names, s, steps[0]), steps[1..]);
      assert past + steps == (past + [steps[0]]) + steps[1..];
    }
  }

  lemma HistoryFromStart(names: Names, cfg: Config, steps: seq<Step>)
    requires Legal(names, Init(cfg), steps)
    ensures History(cfg, steps, Exec(names, Init(cfg), steps))
  {
    InvInit(names, cfg);
    HistoryRun(names, cfg, [], Init(cfg), steps);
    assert [] + steps == steps;
  }

  // ---- the results ----

  /** The client that asked is answered with what an upstream said under the configuration in force when
      the query was routed, its addresses probed exactly where that configuration has them probed; an
      override answer is what the override table said. */
  lemma AnswersAreDelivered(names: Names, cfg: Config, steps: seq<Step>, t: nat)
    requires Legal(names, Init(cfg), steps) && t in Exec(names, Init(cfg), steps).threads
    ensures var q := Exec(names, Init(cfg), steps).threads[t];
            && Arrive(t, q.req) in steps
            && (q.phase.Done? && q.phase.outcome.Answer? ==>
                  FromUpstream(cfg, steps, t, q.req, q.phase.outcome.resp))
            && (q.phase.Done? && q.phase.outcome.Override? ==>
                  FromOverrides(steps, t, q.req, q.phase.outcome.resp))
  {
    HistoryFromStart(names, cfg, steps);
    var s := Exec(names, Init(cfg), steps);
    assert Traced(cfg, steps, s.configs, t, s.threads[t]);
  }

  /** A query is answered from upstream only while some upstream of its list is left, and fails only when
      every one of them has failed; while it is out, it waits for the first that has not. */
  lemma EveryUpstreamTried(names: Names, cfg: Config, steps: seq<Step>, t: nat)
    requires Legal(names, Init(cfg), steps) && t in Exec(names, Init(cfg), steps).threads
    ensures var q := Exec(names, Init(cfg), steps).threads[t];
            && (q.phase.Done? && q.phase.outcome.ServFail? ==>
                  OneQuestion(q) && Fails(steps, t) == |LegsOf(cfg, steps, t, q)|)
            && (q.phase.Done? && q.phase.outcome.Answer? ==>
                  OneQuestion(q) && Fails(steps, t) < |LegsOf(cfg, steps, t, q)|)
            && (q.phase.Exchanging? ==>
                  && OneQuestion(q) && Fails(steps, t) < |LegsOf(cfg, steps, t, q)|
                  && q.phase.leg == LegsOf(cfg, steps, t, q)[Fails(steps, t)])
  {
    HistoryFromStart(names, cfg, steps);
    var s := Exec(names, Init(cfg), steps);
    assert Traced(cfg, steps, s.configs, t, s.threads[t]);
  }

  /** Those that have asked for a token and are not done. */
  function Admitted(steps: seq<Step>, s: State): set<nat> {
    set t | t in s.threads && TryAcquire(t) in steps && !s.threads[t].phase.Done?
  }

  /** A query is turned away exactly when 512 others are past the semaphore and not done. */
  lemma SaturatedIff(names: Names, cfg: Config, steps: seq<Step>, t: nat)
    requires Legal(names, Init(cfg), steps) && Enabled(names, Exec(names, Init(cfg), steps), TryAcquire(t))
    ensures var s := Exec(names, Init(cfg), steps);
            var ph := Do(names, s, TryAcquire(t)).threads[t].phase;
            && t !in Admitted(steps, s) && |Admitted(steps, s)| <= 512
            && ph == if |Admitted(steps, s)| == 512 then Done(Saturated) else Phase.Admitted
  {
    HistoryFromStart(names, cfg, steps);
    TokensBounded(names, cfg, steps);
    var s := Exec(names, Init(cfg), steps);
    forall u | u in s.threads
      ensures u in Admitted(steps, s) <==> In(Holding, s.threads[u].phase)
    {
      assert Traced(cfg, steps, s.configs, u, s.threads[u]);
    }
    assert Admitted(steps, s) == Those(s.threads, Holding);
  }

  /** Where the text of a cache hit comes from: the query it names got an answer of an upstream or an
      override answer to the same question, and the hit differs from it by what every hit changes. */
  lemma HitsAreDelivered(names: Names, cfg: Config, steps: seq<Step>, t: nat)
    requires WellFormed(names.types) && WellFormed(names.classes) && Legal(names, Init(cfg), steps)
    requires var s := Exec(names, Init(cfg), steps);
             t in s.threads && s.threads[t].phase.Done? && s.threads[t].phase.outcome.Hit?
    ensures var s := Exec(names, Init(cfg), steps);
            var q := s.threads[t];
            var hit := q.phase.outcome;
            && CacheGet(t, true, hit.ttl) in steps && hit.from in s.threads
            && var p := s.threads[hit.from];
            && OneQuestion(q) && OneQuestion(p) && KeyOf(names, p) == KeyOf(names, q)
            && exists m: Msg ::
                 && (FromUpstream(cfg, steps, hit.from, p.req, m) || FromOverrides(steps, hit.from, p.req, m))
                 && Carries(q.req, m.(ns := hit.resp.ns), hit.resp)
                 && TtlsSet(m.answer, hit.resp.answer, hit.ttl) && TtlsSet(m.ns, hit.resp.ns, hit.ttl)
  {
    HistoryFromStart(names, cfg, steps);
    HitsAnswerTheQuestion(names, cfg, steps, t);
    InvInit(names, cfg);
    InvRun(names, Init(cfg), steps);
    var s := Exec(names, Init(cfg), steps);
    var q := s.threads[t];
    var hit := q.phase.outcome;
    HitIsReply(names, s, t);
    var p := s.threads[hit.from];
    var m := Reply(p.phase).value;
    assert Traced(cfg, steps, s.configs, t, q) && Traced(cfg, steps, s.configs, hit.from, p);
    assert FromUpstream(cfg, steps, hit.from, p.req, m) || FromOverrides(steps, hit.from, p.req, m);
    AgedIsSet(m.answer, hit.resp.answer, hit.ttl);
    AgedIsSet(m.ns, hit.resp.ns, hit.ttl);
    FinalizedCarries(q.req, AgedMsg(m, hit.ttl));
    assert Carries(q.req, m.(ns := hit.resp.ns), hit.resp);
  }
}
