/** Queries, reloads and flushes of one engine, interleaved: one step is what runs between two
    points where another goroutine can come in. Upstream answers, override lookups, cache ages and
    the choice to cache are oracles; the cache may lose any entry at any time. */
module Engine {
  import opened Prelude
  import opened Messages
  import opened CacheKey
  import AnswerFilter
  import Filter
  import Matcher
  import Probing

  const MAX_INFLIGHT: nat := 512
  const RCODE_SUCCESS: nat := 0

  /** What a configuration says about probing the addresses of an answer. */
  datatype Probe = Probe(enabled: bool, mode: Filter.Mode, maxIps: int)

  /** The parts of a valid configuration that decide a route and what becomes of its answer. */
  datatype Config = Config(full: bool, polluted: seq<string>, hasFallback: bool, fallbackToDoh: bool, probe: Probe)

  datatype Request = Request(id: nat, questions: seq<Question>, edns: bool)

  /** What one read of the engine's fields finds: the generation each of them was built from. */
  datatype Snapshot = Snapshot(cfg: nat, matcher: nat, doh: nat, system: nat, fallback: nat, prober: nat)

  function At(g: nat): Snapshot {
    Snapshot(g, g, g, g, g, g)
  }

  /** Which upstreams a routed query is waiting for. */
  datatype Leg = Doh | System | Fallback | DohFallback

  datatype Outcome =
    | FormatError
    | Hit(resp: Msg, from: nat, ttl: nat)
    | Override(resp: Msg)
    | Saturated
    | ServFail
    | Answer(snap: Snapshot, resp: Msg)

  datatype Phase =
    | Arrived
    | Keyed
    | Missed
    | Overridden(gen: nat, resp: Msg)
    | Unmatched
    | Admitted
    | Exchanging(snap: Snapshot, leg: Leg)
    | Answered(snap: Snapshot, resp: Msg)
    | Stored(snap: Snapshot, resp: Msg)
    | Failing
    | Done(outcome: Outcome)

  datatype Query = Query(req: Request, phase: Phase)

  /** A cache entry with its history: the query that put it there, whether that query was routed
      or answered from the override table, and under which generation. */
  datatype Entry = Entry(msg: Msg, gen: nat, routed: bool, author: nat)

  /** The engine's counters, and four more the code does not keep. */
  datatype Counters = Counters(
    queries: nat, doh: nat, system: nat, fallback: nat, overrides: nat, failures: nat,
    formatErrors: nat, hits: nat, saturated: nat, dohFallbacks: nat)

  datatype State = State(
    configs: seq<Config>,
    fields: Snapshot,
    overrides: nat,
    cache: map<string, Entry>,
    count: Counters,
    threads: map<nat, Query>,
    pendingFlushes: nat)

  /** What the workers of the two Filter calls over an answer return. */
  datatype Probes = Probes(results4: seq<Probing.Result>, results6: seq<Probing.Result>)

  datatype Step =
    | Arrive(t: nat, req: Request)
    | CheckQuestions(t: nat)
    | CacheGet(t: nat, hit: bool, ttl: nat)
    | ReadOverrides(t: nat, found: Option<Msg>)
    | StoreOverride(t: nat, cacheable: bool)
    | TryAcquire(t: nat)
    | TakeSnapshot(t: nat)
    | ExchangeOk(t: nat, body: Msg, probes: Probes)
    | ExchangeFails(t: nat)
    | Put(t: nat, cacheable: bool)
    | Release(t: nat)
    | Swap(cfg: Config)
    | ReloadFlush
    | UserFlush
    | Lose(key: string)

  function Init(cfg: Config): State {
    State([cfg], At(0), 0, map[], Counters(0, 0, 0, 0, 0, 0, 0, 0, 0, 0), map[], 0)
  }

  // ---- messages and keys ----

  const OPT_RECORD := RR(".", TYPE_OPT, 0, Other(""))

  /** finalizeEDNS, after the id and the question have been set. */
  function Finalize(req: Request, m: Msg): Msg {
    var r := m.(id := req.id, questions := req.questions);
    if req.edns && !HasOpt(r) then r.(extra := r.extra + [OPT_RECORD]) else r
  }

  predicate OneQuestion(q: Query) {
    |q.req.questions| == 1
  }

  function KeyOf(names: Names, q: Query): string
    requires OneQuestion(q)
  {
    Key(names, q.req.questions[0])
  }

  // ---- routes ----

  /** The mode of one configuration, the matcher of another field. */
  predicate ViaDoh(configs: seq<Config>, snap: Snapshot, name: string)
    requires snap.cfg < |configs| && snap.matcher < |configs|
  {
    configs[snap.cfg].full || Matcher.Matches(Matcher.Parsed(configs[snap.matcher].polluted), name)
  }

  /** Where a query goes when its present upstreams have failed. */
  function NextLeg(configs: seq<Config>, snap: Snapshot, leg: Leg): Option<Leg>
    requires snap.cfg < |configs| && snap.fallback < |configs|
  {
    if leg == System && configs[snap.fallback].hasFallback then Some(Fallback)
    else if (leg == System || leg == Fallback) && configs[snap.cfg].fallbackToDoh then Some(DohFallback)
    else None
  }

  // ---- probing an answer ----

  predicate Known(configs: seq<Config>, snap: Snapshot) {
    snap.cfg < |configs| && snap.matcher < |configs| && snap.prober < |configs|
  }

  /** Only answers without an error code to polluted names are probed, if there is a prober. */
  predicate IsProbed(configs: seq<Config>, snap: Snapshot, req: Request, body: Msg)
    requires Known(configs, snap) && |req.questions| == 1
  {
    && configs[snap.prober].probe.enabled
    && Matcher.Matches(Matcher.Parsed(configs[snap.matcher].polluted), req.questions[0].name)
    && body.rcode == RCODE_SUCCESS
  }

  predicate ProbesFit(configs: seq<Config>, snap: Snapshot, req: Request, body: Msg, probes: Probes) {
    && Known(configs, snap) && |req.questions| == 1
    && (IsProbed(configs, snap, req, body) ==>
          AnswerFilter.Probed(body.answer, probes.results4, probes.results6, configs[snap.cfg].probe.maxIps))
  }

  /** An upstream's answer as the prober of the snapshot reshapes it. */
  function Reshaped(configs: seq<Config>, snap: Snapshot, req: Request, body: Msg, probes: Probes): Msg
    requires ProbesFit(configs, snap, req, body, probes)
  {
    if !IsProbed(configs, snap, req, body) then body
    else
      var probe := configs[snap.cfg].probe;
      body.(answer := AnswerFilter.FilteredAnswer(body.answer, probes.results4, probes.results6,
                                                  probe.mode, probe.maxIps))
  }

  // ---- sets of queries ----

  datatype Class =
    | Holding | Unrouted | OnSystem | OnPlain | InExchange
    | Everyone | FormatErrors | Hits | Overrides | Saturations | Failures

  predicate In(c: Class, ph: Phase) {
    match c
    case Holding => ph.Admitted? || ph.Exchanging? || ph.Answered? || ph.Stored? || ph.Failing?
    case Unrouted => ph.Arrived? || ph.Keyed? || ph.Missed? || ph.Unmatched? || ph.Admitted?
    case OnSystem => ph.Exchanging? && ph.leg.System?
    case OnPlain => ph.Exchanging? && (ph.leg.System? || ph.leg.Fallback?)
    case InExchange => ph.Exchanging?
    case Everyone => true
    case FormatErrors => ph.Done? && ph.outcome.FormatError?
    case Hits => ph.Done? && ph.outcome.Hit?
    case Overrides => ph.Overridden? || (ph.Done? && ph.outcome.Override?)
    case Saturations => ph.Done? && ph.outcome.Saturated?
    case Failures => ph.Failing? || (ph.Done? && ph.outcome.ServFail?)
  }

  function Those(threads: map<nat, Query>, c: Class): set<nat> {
    set t | t in threads && In(c, threads[t].phase)
  }

  // ---- steps ----

  predicate Waits(s: State, t: nat, ph: Phase) {
    t in s.threads && s.threads[t].phase == ph
  }

  predicate Enabled(names: Names, s: State, step: Step) {
    match step
    case Arrive(t, _) => t !in s.threads
    case CheckQuestions(t) => Waits(s, t, Arrived)
    case CacheGet(t, hit, _) =>
      Waits(s, t, Keyed) && OneQuestion(s.threads[t]) && (hit ==> KeyOf(names, s.threads[t]) in s.cache)
    case ReadOverrides(t, _) => Waits(s, t, Missed)
    case StoreOverride(t, _) => t in s.threads && s.threads[t].phase.Overridden? && OneQuestion(s.threads[t])
    case TryAcquire(t) => Waits(s, t, Unmatched)
    case TakeSnapshot(t) =>
      && Waits(s, t, Admitted) && OneQuestion(s.threads[t])
      && s.fields.cfg < |s.configs| && s.fields.matcher < |s.configs|
    case ExchangeOk(t, body, probes) =>
      && t in s.threads && s.threads[t].phase.Exchanging?
      && ProbesFit(s.configs, s.threads[t].phase.snap, s.threads[t].req, body, probes)
    case ExchangeFails(t) =>
      && t in s.threads && s.threads[t].phase.Exchanging?
      && s.threads[t].phase.snap.cfg < |s.configs| && s.threads[t].phase.snap.fallback < |s.configs|
    case Put(t, _) => t in s.threads && s.threads[t].phase.Answered? && OneQuestion(s.threads[t])
    case Release(t) => t in s.threads && (s.threads[t].phase.Stored? || s.threads[t].phase.Failing?)
    case Swap(cfg) => Matcher.AllValid(cfg.polluted)
    case ReloadFlush => s.pendingFlushes > 0
    case UserFlush => true
    case Lose(_) => true
  }

  function Move(s: State, t: nat, ph: Phase, count: Counters): State
    requires t in s.threads
  {
    s.(threads := s.threads[t := s.threads[t].(phase := ph)], count := count)
  }

  function DoArrive(s: State, t: nat, req: Request): State {
    s.(threads := s.threads[t := Query(req, Arrived)], count := s.count.(queries := s.count.queries + 1))
  }

  function DoCheck(s: State, t: nat): State
    requires t in s.threads
  {
    if OneQuestion(s.threads[t]) then Move(s, t, Keyed, s.count)
    else Move(s, t, Done(FormatError), s.count.(formatErrors := s.count.formatErrors + 1))
  }

  function HitOf(q: Query, e: Entry, ttl: nat): Outcome {
    Hit(Finalize(q.req, AgedMsg(e.msg, ttl)), e.author, ttl)
  }

  function DoGet(names: Names, s: State, t: nat, hit: bool, ttl: nat): State
    requires Enabled(names, s, CacheGet(t, hit, ttl))
  {
    if !hit then Move(s, t, Missed, s.count)
    else
      Move(s, t, Done(HitOf(s.threads[t], s.cache[KeyOf(names, s.threads[t])], ttl)),
           s.count.(hits := s.count.hits + 1))
  }

  function DoOverrides(s: State, t: nat, found: Option<Msg>): State
    requires t in s.threads
  {
    if found.None? then Move(s, t, Unmatched, s.count)
    else
      Move(s, t, Overridden(s.overrides, Finalize(s.threads[t].req, found.value)),
           s.count.(overrides := s.count.overrides + 1))
  }

  function DoStoreOverride(names: Names, s: State, t: nat, cacheable: bool): State
    requires Enabled(names, s, StoreOverride(t, cacheable))
  {
    var ph := s.threads[t].phase;
    var s1 := Move(s, t, Done(Override(ph.resp)), s.count);
    if !cacheable then s1
    else s1.(cache := s.cache[KeyOf(names, s.threads[t]) := Entry(ph.resp, ph.gen, false, t)])
  }

  function DoAcquire(s: State, t: nat): State
    requires t in s.threads
  {
    if |Those(s.threads, Holding)| < MAX_INFLIGHT then Move(s, t, Admitted, s.count)
    else Move(s, t, Done(Saturated), s.count.(saturated := s.count.saturated + 1))
  }

  function DoSnapshot(names: Names, s: State, t: nat): State
    requires Enabled(names, s, TakeSnapshot(t))
  {
    if ViaDoh(s.configs, s.fields, s.threads[t].req.questions[0].name)
    then Move(s, t, Exchanging(s.fields, Doh), s.count.(doh := s.count.doh + 1))
    else Move(s, t, Exchanging(s.fields, System), s.count.(system := s.count.system + 1))
  }

  function DoAnswer(s: State, t: nat, body: Msg, probes: Probes): State
    requires t in s.threads && s.threads[t].phase.Exchanging?
    requires ProbesFit(s.configs, s.threads[t].phase.snap, s.threads[t].req, body, probes)
  {
    var snap, req := s.threads[t].phase.snap, s.threads[t].req;
    Move(s, t, Answered(snap, Finalize(req, Reshaped(s.configs, snap, req, body, probes))), s.count)
  }

  function DoFail(names: Names, s: State, t: nat): State
    requires Enabled(names, s, ExchangeFails(t))
  {
    var snap, leg, c := s.threads[t].phase.snap, s.threads[t].phase.leg, s.count;
    match NextLeg(s.configs, snap, leg)
    case Some(Fallback) => Move(s, t, Exchanging(snap, Fallback), c.(fallback := c.fallback + 1))
    case Some(next) =>
      Move(s, t, Exchanging(snap, next), c.(doh := c.doh + 1, dohFallbacks := c.dohFallbacks + 1))
    case None => Move(s, t, Failing, c.(failures := c.failures + 1))
  }

  function DoPut(names: Names, s: State, t: nat, cacheable: bool): State
    requires Enabled(names, s, Put(t, cacheable))
  {
    var ph := s.threads[t].phase;
    var s1 := Move(s, t, Stored(ph.snap, ph.resp), s.count);
    if !cacheable then s1
    else s1.(cache := s.cache[KeyOf(names, s.threads[t]) := Entry(ph.resp, ph.snap.cfg, true, t)])
  }

  function DoRelease(s: State, t: nat): State
    requires t in s.threads
  {
    var ph := s.threads[t].phase;
    Move(s, t, Done(if ph.Stored? then Answer(ph.snap, ph.resp) else ServFail), s.count)
  }

  function DoSwap(s: State, cfg: Config): State {
    s.(configs := s.configs + [cfg], fields := At(|s.configs|), overrides := |s.configs|,
       pendingFlushes := s.pendingFlushes + 1)
  }

  function Do(names: Names, s: State, step: Step): State
    requires Enabled(names, s, step)
  {
    match step
    case Arrive(t, req) => DoArrive(s, t, req)
    case CheckQuestions(t) => DoCheck(s, t)
    case CacheGet(t, hit, ttl) => DoGet(names, s, t, hit, ttl)
    case ReadOverrides(t, found) => DoOverrides(s, t, found)
    case StoreOverride(t, cacheable) => DoStoreOverride(names, s, t, cacheable)
    case TryAcquire(t) => DoAcquire(s, t)
    case TakeSnapshot(t) => DoSnapshot(names, s, t)
    case ExchangeOk(t, body, probes) => DoAnswer(s, t, body, probes)
    case ExchangeFails(t) => DoFail(names, s, t)
    case Put(t, cacheable) => DoPut(names, s, t, cacheable)
    case Release(t) => DoRelease(s, t)
    case Swap(cfg) => DoSwap(s, cfg)
    case ReloadFlush => s.(cache := map[], pendingFlushes := s.pendingFlushes - 1)
    case UserFlush => s.(cache := map[])
    case Lose(key) => s.(cache := s.cache - {key})
  }

  predicate Legal(names: Names, s: State, steps: seq<Step>)
    decreases |steps|
  {
    steps == [] || (Enabled(names, s, steps[0]) && Legal(names, Do(names, s, steps[0]), steps[1..]))
  }

  function Exec(names: Names, s: State, steps: seq<Step>): State
    requires Legal(names, s, steps)
    decreases |steps|
  {
    if steps == [] then s else Exec(names, Do(names, s, steps[0]), steps[1..])
  }

  // ---- the invariant ----

  /** All fields come from the newest generation: they are only ever swapped together. */
  predicate Uniform(s: State) {
    s.configs != [] && s.fields == At(|s.configs| - 1) && s.overrides == |s.configs| - 1
  }

  /** A response carries the client's id and question, and an OPT record when the client sent one. */
  predicate Fits(req: Request, resp: Msg) {
    resp.id == req.id && resp.questions == req.questions && (req.edns ==> HasOpt(resp))
  }

  /** One generation decides everything about a route. */
  predicate RoutedBy(configs: seq<Config>, g: nat, req: Request, leg: Leg) {
    && g < |configs| && |req.questions| == 1
    && (leg == Doh <==> ViaDoh(configs, At(g), req.questions[0].name))
    && (leg == Fallback ==> configs[g].hasFallback)
    && (leg == DohFallback ==> configs[g].fallbackToDoh)
  }

  predicate QueryOk(configs: seq<Config>, q: Query) {
    match q.phase
    case Arrived => true
    case Overridden(gen, resp) => OneQuestion(q) && gen < |configs| && Fits(q.req, resp)
    case Exchanging(snap, leg) => snap == At(snap.cfg) && RoutedBy(configs, snap.cfg, q.req, leg)
    case Answered(snap, resp) => OneQuestion(q) && snap == At(snap.cfg) && snap.cfg < |configs| && Fits(q.req, resp)
    case Stored(snap, resp) => OneQuestion(q) && snap == At(snap.cfg) && snap.cfg < |configs| && Fits(q.req, resp)
    case Done(FormatError) => !OneQuestion(q)
    case Done(Hit(resp, _, _)) => OneQuestion(q) && Fits(q.req, resp)
    case Done(Override(resp)) => OneQuestion(q) && Fits(q.req, resp)
    case Done(Answer(snap, resp)) => OneQuestion(q) && snap == At(snap.cfg) && snap.cfg < |configs| && Fits(q.req, resp)
    case _ => OneQuestion(q)
  }

  predicate QueriesOk(s: State) {
    forall t :: t in s.threads ==> QueryOk(s.configs, s.threads[t])
  }

  /** The finished response of a query that did not come from the cache. */
  function Reply(ph: Phase): Option<Msg> {
    match ph
    case Stored(_, resp) => Some(resp)
    case Done(Answer(_, resp)) => Some(resp)
    case Done(Override(resp)) => Some(resp)
    case _ => None
  }

  /** The generation a query was routed under, if it was routed and finished. */
  function RepliedUnder(ph: Phase): Option<nat> {
    match ph
    case Stored(snap, _) => Some(snap.cfg)
    case Done(Answer(snap, _)) => Some(snap.cfg)
    case _ => None
  }

  /** An entry is the finished response of its author to a question with its key. */
  predicate EntryOk(names: Names, threads: map<nat, Query>, key: string, e: Entry) {
    && e.author in threads
    && var q := threads[e.author];
    && OneQuestion(q) && KeyOf(names, q) == key
    && Reply(q.phase) == Some(e.msg)
    && (e.routed ==> RepliedUnder(q.phase) == Some(e.gen))
  }

  predicate CacheOk(names: Names, s: State) {
    forall key :: key in s.cache ==> EntryOk(names, s.threads, key, s.cache[key])
  }

  /** A hit is another query's finished response to a question with the same key, aged. */
  predicate HitOk(names: Names, threads: map<nat, Query>, q: Query) {
    q.phase.Done? && q.phase.outcome.Hit? ==>
      var h := q.phase.outcome;
      && OneQuestion(q) && h.from in threads
      && var p := threads[h.from];
      && OneQuestion(p) && KeyOf(names, p) == KeyOf(names, q)
      && Reply(p.phase).Some?
      && h.resp == Finalize(q.req, AgedMsg(Reply(p.phase).value, h.ttl))
  }

  predicate HitsOk(names: Names, s: State) {
    forall t :: t in s.threads ==> HitOk(names, s.threads, s.threads[t])
  }

  predicate TokensOk(s: State) {
    |Those(s.threads, Holding)| <= MAX_INFLIGHT
  }

  /** What the counters say about a class of queries. Falling back to DoH counts a query under two
      routes; the unrouted queries are the ones not yet counted under any outcome or route. */
  function Tally(count: Counters, c: Class): int
    requires Tallied(c)
  {
    match c
    case Everyone => count.queries
    case FormatErrors => count.formatErrors
    case Hits => count.hits
    case Overrides => count.overrides
    case Saturations => count.saturated
    case Failures => count.failures
    case Unrouted =>
      count.queries + count.dohFallbacks - count.formatErrors - count.hits - count.overrides
      - count.saturated - count.system - count.doh
  }

  predicate Tallied(c: Class) {
    !(c.Holding? || c.OnSystem? || c.OnPlain? || c.InExchange?)
  }

  predicate CountsExact(s: State) {
    forall c | Tallied(c) :: Tally(s.count, c) == |Those(s.threads, c)|
  }

  /** How many queries of a class the route counters leave room for. */
  function Room(count: Counters, c: Class): int
    requires Roomy(c)
  {
    match c
    case OnSystem => count.system - count.fallback
    case OnPlain => count.system - count.dohFallbacks
    case InExchange => count.system + count.doh - count.failures - count.dohFallbacks
  }

  predicate Roomy(c: Class) {
    c.OnSystem? || c.OnPlain? || c.InExchange?
  }

  predicate RoomLeft(s: State) {
    forall c | Roomy(c) :: |Those(s.threads, c)| <= Room(s.count, c)
  }

  predicate CountersOk(s: State) {
    CountsExact(s) && RoomLeft(s)
  }

  predicate Inv(names: Names, s: State) {
    Uniform(s) && QueriesOk(s) && CacheOk(names, s) && HitsOk(names, s) && TokensOk(s) && CountersOk(s)
  }

  // ---- the invariant is kept, one part at a time ----

  lemma FinalizeFits(req: Request, m: Msg)
    ensures Fits(req, Finalize(req, m))
  {
    var r := m.(id := req.id, questions := req.questions);
    if req.edns && !HasOpt(r) {
      var e := r.extra + [OPT_RECORD];
      assert IsOpt(e[|e| - 1]);
    }
  }

  /** Adding or moving one query changes each set by at most that query. */
  lemma ThoseMove(threads: map<nat, Query>, t: nat, q: Query, c: Class)
    ensures |Those(threads[t := q], c)|
         == |Those(threads, c)| - (if t in threads && In(c, threads[t].phase) then 1 else 0)
                                + (if In(c, q.phase) then 1 else 0)
  {
    var before, now := Those(threads, c), Those(threads[t := q], c);
    var rest := before - {t};
    assert forall x :: x in now <==> x in rest || (x == t && In(c, q.phase));
    WithOne(before, rest, t, t in threads && In(c, threads[t].phase));
    WithOne(now, rest, t, In(c, q.phase));
  }

  lemma WithOne(whole: set<nat>, rest: set<nat>, t: nat, present: bool)
    requires t !in rest && forall x :: x in whole <==> x in rest || (x == t && present)
    ensures |whole| == |rest| + (if present then 1 else 0)
  {
    assert whole == rest + (if present then {t} else {});
  }

  /** The query a step belongs to. */
  predicate IsQueryStep(step: Step) {
    !(step.Swap? || step.ReloadFlush? || step.UserFlush? || step.Lose?)
  }

  /** The steps before a query is admitted. */
  predicate IsEarly(step: Step) {
    step.Arrive? || step.CheckQuestions? || step.CacheGet? || step.ReadOverrides? || step.TryAcquire?
  }

  /** What a step does to the set of queries: at most one is added or moved, without changing its
      request or a response it already has. */
  predicate OneMoves(s: State, u: State, t: nat) {
    && u.configs == s.configs && u.fields == s.fields && u.overrides == s.overrides
    && t in u.threads && u.threads == s.threads[t := u.threads[t]]
    && (t in s.threads ==>
          && u.threads[t].req == s.threads[t].req
          && (Reply(s.threads[t].phase).Some? ==>
                && Reply(u.threads[t].phase) == Reply(s.threads[t].phase)
                && RepliedUnder(u.threads[t].phase) == RepliedUnder(s.threads[t].phase)))
  }

  lemma QueryStepMoves(names: Names, s: State, step: Step)
    requires IsQueryStep(step) && Enabled(names, s, step)
    ensures OneMoves(s, Do(names, s, step), step.t)
  {
    if IsEarly(step) { QueryStepMovesEarly(names, s, step); } else { QueryStepMovesLate(names, s, step); }
  }

  lemma QueryStepMovesEarly(names: Names, s: State, step: Step)
    requires IsQueryStep(step) && Enabled(names, s, step)
    requires IsEarly(step)
    ensures OneMoves(s, Do(names, s, step), step.t)
  {}

  lemma QueryStepMovesLate(names: Names, s: State, step: Step)
    requires IsQueryStep(step) && Enabled(names, s, step)
    requires !IsEarly(step)
    ensures OneMoves(s, Do(names, s, step), step.t)
  {}

  lemma UniformStep(names: Names, s: State, step: Step)
    requires Uniform(s) && Enabled(names, s, step)
    ensures Uniform(Do(names, s, step))
  {
    if IsQueryStep(step) { QueryStepMoves(names, s, step); }
  }

  predicate MoverIsOk(names: Names, s: State, step: Step)
    requires IsQueryStep(step) && Enabled(names, s, step)
  {
    var u := Do(names, s, step);
    step.t in u.threads && QueryOk(u.configs, u.threads[step.t])
  }

  lemma SnapshotOk(names: Names, s: State, t: nat)
    requires Uniform(s) && Enabled(names, s, TakeSnapshot(t))
    ensures MoverIsOk(names, s, TakeSnapshot(t))
  {}

  lemma NextLegOk(names: Names, s: State, t: nat)
    requires QueriesOk(s) && Enabled(names, s, ExchangeFails(t))
    ensures MoverIsOk(names, s, ExchangeFails(t))
  {}

  lemma HitFits(names: Names, s: State, t: nat, ttl: nat)
    requires QueriesOk(s) && Enabled(names, s, CacheGet(t, true, ttl))
    ensures MoverIsOk(names, s, CacheGet(t, true, ttl))
  {
    FinalizeFits(s.threads[t].req, AgedMsg(s.cache[KeyOf(names, s.threads[t])].msg, ttl));
  }

  lemma MoverOk(names: Names, s: State, step: Step)
    requires Uniform(s) && QueriesOk(s) && IsQueryStep(step) && Enabled(names, s, step)
    ensures MoverIsOk(names, s, step)
  {
    if step.TakeSnapshot? {
      SnapshotOk(names, s, step.t);
    } else if step.ExchangeFails? {
      NextLegOk(names, s, step.t);
    } else if step.CacheGet? && step.hit {
      HitFits(names, s, step.t, step.ttl);
    } else if step.ReadOverrides? || step.ExchangeOk? {
      AnsweredOk(names, s, step);
    } else {
      OtherMoverOk(names, s, step);
    }
  }

  lemma AnsweredOk(names: Names, s: State, step: Step)
    requires Uniform(s) && QueriesOk(s) && (step.ReadOverrides? || step.ExchangeOk?) && Enabled(names, s, step)
    ensures MoverIsOk(names, s, step)
  {
    if step.ReadOverrides? && step.found.Some? {
      FinalizeFits(s.threads[step.t].req, step.found.value);
    } else if step.ExchangeOk? {
      var q := s.threads[step.t];
      FinalizeFits(q.req, Reshaped(s.configs, q.phase.snap, q.req, step.body, step.probes));
    }
  }

  lemma OtherMoverOk(names: Names, s: State, step: Step)
    requires Uniform(s) && QueriesOk(s) && IsQueryStep(step) && Enabled(names, s, step)
    requires !step.TakeSnapshot? && !step.ExchangeFails? && !step.ReadOverrides? && !step.ExchangeOk?
    requires !(step.CacheGet? && step.hit)
    ensures MoverIsOk(names, s, step)
  {
    if IsEarly(step) { OtherMoverOkEarly(names, s, step); } else { OtherMoverOkLate(names, s, step); }
  }

  lemma OtherMoverOkEarly(names: Names, s: State, step: Step)
    requires Uniform(s) && QueriesOk(s) && IsQueryStep(step) && Enabled(names, s, step)
    requires !step.TakeSnapshot? && !step.ExchangeFails? && !step.ReadOverrides? && !step.ExchangeOk?
    requires !(step.CacheGet? && step.hit)
    requires IsEarly(step)
    ensures MoverIsOk(names, s, step)
  {}

  lemma OtherMoverOkLate(names: Names, s: State, step: Step)
    requires Uniform(s) && QueriesOk(s) && IsQueryStep(step) && Enabled(names, s, step)
    requires !step.TakeSnapshot? && !step.ExchangeFails? && !step.ReadOverrides? && !step.ExchangeOk?
    requires !(step.CacheGet? && step.hit)
    requires !IsEarly(step)
    ensures MoverIsOk(names, s, step)
  {}

  lemma QueriesStep(names: Names, s: State, step: Step)
    requires Uniform(s) && QueriesOk(s) && Enabled(names, s, step)
    ensures QueriesOk(Do(names, s, step))
  {
    var u := Do(names, s, step);
    if IsQueryStep(step) {
      QueryStepMoves(names, s, step);
      MoverOk(names, s, step);
    } else if step.Swap? {
      forall t | t in u.threads
        ensures QueryOk(u.configs, u.threads[t])
      {
        assert QueryOk(s.configs, s.threads[t]);
      }
    }
  }

  /** An entry was there before, or was written by the query that moved. */
  predicate Accounted(names: Names, s: State, u: State, t: nat, key: string)
    requires key in u.cache
  {
    || (key in s.cache && u.cache[key] == s.cache[key])
    || (u.cache[key].author == t && EntryOk(names, u.threads, key, u.cache[key]))
  }

  lemma CacheWrites(names: Names, s: State, step: Step, key: string)
    requires IsQueryStep(step) && Enabled(names, s, step)
    requires key in Do(names, s, step).cache
    ensures Accounted(names, s, Do(names, s, step), step.t, key)
  {}

  lemma CacheKept(names: Names, s: State, u: State, t: nat)
    requires CacheOk(names, s) && OneMoves(s, u, t)
    requires forall key :: key in u.cache ==> Accounted(names, s, u, t, key)
    ensures CacheOk(names, u)
  {}

  lemma CacheStep(names: Names, s: State, step: Step)
    requires CacheOk(names, s) && Enabled(names, s, step)
    ensures CacheOk(names, Do(names, s, step))
  {
    var u := Do(names, s, step);
    if IsQueryStep(step) {
      QueryStepMoves(names, s, step);
      forall key | key in u.cache
        ensures Accounted(names, s, u, step.t, key)
      {
        CacheWrites(names, s, step, key);
      }
      CacheKept(names, s, u, step.t);
    }
  }

  lemma HitKept(names: Names, s: State, u: State, t: nat, q: Query)
    requires OneMoves(s, u, t) && HitOk(names, s.threads, q)
    ensures HitOk(names, u.threads, q)
  {}

  lemma MoverHit(names: Names, s: State, step: Step)
    requires CacheOk(names, s) && IsQueryStep(step) && Enabled(names, s, step)
    ensures var u := Do(names, s, step); step.t in u.threads && HitOk(names, s.threads, u.threads[step.t])
  {
    if step.CacheGet? && step.hit {
      var key := KeyOf(names, s.threads[step.t]);
      assert EntryOk(names, s.threads, key, s.cache[key]);
    }
  }

  lemma HitsStep(names: Names, s: State, step: Step)
    requires CacheOk(names, s) && HitsOk(names, s) && Enabled(names, s, step)
    ensures HitsOk(names, Do(names, s, step))
  {
    var u := Do(names, s, step);
    if IsQueryStep(step) {
      QueryStepMoves(names, s, step);
      MoverHit(names, s, step);
      forall t | t in u.threads
        ensures HitOk(names, u.threads, u.threads[t])
      {
        HitKept(names, s, u, step.t, u.threads[t]);
      }
    }
  }

  lemma TokensStep(names: Names, s: State, step: Step)
    requires TokensOk(s) && Enabled(names, s, step)
    ensures TokensOk(Do(names, s, step))
  {
    if IsQueryStep(step) {
      QueryStepMoves(names, s, step);
      ThoseMove(s.threads, step.t, Do(names, s, step).threads[step.t], Holding);
    }
  }

  /** Whoever enters or leaves a class is counted. */
  predicate MoveIsCounted(names: Names, s: State, step: Step, c: Class)
    requires IsQueryStep(step) && Enabled(names, s, step) && Tallied(c)
  {
    var u := Do(names, s, step);
    && step.t in u.threads
    && Tally(u.count, c) - Tally(s.count, c)
         == (if In(c, u.threads[step.t].phase) then 1 else 0)
          - (if step.t in s.threads && In(c, s.threads[step.t].phase) then 1 else 0)
  }

  lemma UnroutedCounted(names: Names, s: State, step: Step)
    requires IsQueryStep(step) && Enabled(names, s, step)
    ensures MoveIsCounted(names, s, step, Unrouted)
  {
    if IsEarly(step) { UnroutedCountedEarly(names, s, step); } else { UnroutedCountedLate(names, s, step); }
  }

  lemma UnroutedCountedEarly(names: Names, s: State, step: Step)
    requires IsQueryStep(step) && Enabled(names, s, step)
    requires IsEarly(step)
    ensures MoveIsCounted(names, s, step, Unrouted)
  {}

  lemma UnroutedCountedLate(names: Names, s: State, step: Step)
    requires IsQueryStep(step) && Enabled(names, s, step)
    requires !IsEarly(step)
    ensures MoveIsCounted(names, s, step, Unrouted)
  {}

  lemma QueriesCounted(names: Names, s: State, step: Step)
    requires IsQueryStep(step) && Enabled(names, s, step)
    ensures MoveIsCounted(names, s, step, Everyone)
  {}

  lemma FormatErrorsCounted(names: Names, s: State, step: Step)
    requires IsQueryStep(step) && Enabled(names, s, step)
    ensures MoveIsCounted(names, s, step, FormatErrors)
  {}

  lemma HitsCounted(names: Names, s: State, step: Step)
    requires IsQueryStep(step) && Enabled(names, s, step)
    ensures MoveIsCounted(names, s, step, Hits)
  {}

  lemma OverridesCounted(names: Names, s: State, step: Step)
    requires IsQueryStep(step) && Enabled(names, s, step)
    ensures MoveIsCounted(names, s, step, Overrides)
  {
    if IsEarly(step) { OverridesCountedEarly(names, s, step); } else { OverridesCountedLate(names, s, step); }
  }

  lemma OverridesCountedEarly(names: Names, s: State, step: Step)
    requires IsQueryStep(step) && Enabled(names, s, step)
    requires IsEarly(step)
    ensures MoveIsCounted(names, s, step, Overrides)
  {}

  lemma OverridesCountedLate(names: Names, s: State, step: Step)
    requires IsQueryStep(step) && Enabled(names, s, step)
    requires !IsEarly(step)
    ensures MoveIsCounted(names, s, step, Overrides)
  {}

  lemma SaturationsCounted(names: Names, s: State, step: Step)
    requires IsQueryStep(step) && Enabled(names, s, step)
    ensures MoveIsCounted(names, s, step, Saturations)
  {}

  lemma FailuresCounted(names: Names, s: State, step: Step)
    requires IsQueryStep(step) && Enabled(names, s, step)
    ensures MoveIsCounted(names, s, step, Failures)
  {
    if IsEarly(step) { FailuresCountedEarly(names, s, step); } else { FailuresCountedLate(names, s, step); }
  }

  lemma FailuresCountedEarly(names: Names, s: State, step: Step)
    requires IsQueryStep(step) && Enabled(names, s, step)
    requires IsEarly(step)
    ensures MoveIsCounted(names, s, step, Failures)
  {}

  lemma FailuresCountedLate(names: Names, s: State, step: Step)
    requires IsQueryStep(step) && Enabled(names, s, step)
    requires !IsEarly(step)
    ensures MoveIsCounted(names, s, step, Failures)
  {}

  lemma CountsStep(names: Names, s: State, step: Step)
    requires CountsExact(s) && Enabled(names, s, step)
    ensures CountsExact(Do(names, s, step))
  {
    var u := Do(names, s, step);
    forall c | Tallied(c)
      ensures Tally(u.count, c) == |Those(u.threads, c)|
    {
      assert Tally(s.count, c) == |Those(s.threads, c)|;
      if IsQueryStep(step) {
        CountStep(names, s, step, c);
      }
    }
  }

  lemma CountStep(names: Names, s: State, step: Step, c: Class)
    requires IsQueryStep(step) && Enabled(names, s, step)
    requires Tallied(c) && Tally(s.count, c) == |Those(s.threads, c)|
    ensures var u := Do(names, s, step); Tally(u.count, c) == |Those(u.threads, c)|
  {
    match c {
      case Unrouted => UnroutedCounted(names, s, step);
      case Everyone => QueriesCounted(names, s, step);
      case FormatErrors => FormatErrorsCounted(names, s, step);
      case Hits => HitsCounted(names, s, step);
      case Overrides => OverridesCounted(names, s, step);
      case Saturations => SaturationsCounted(names, s, step);
      case Failures => FailuresCounted(names, s, step);
    }
    QueryStepMoves(names, s, step);
    CountKept(s, Do(names, s, step), step.t, c);
  }

  lemma CountKept(s: State, u: State, t: nat, c: Class)
    requires OneMoves(s, u, t) && Tallied(c) && Tally(s.count, c) == |Those(s.threads, c)|
    requires Tally(u.count, c) - Tally(s.count, c)
               == (if In(c, u.threads[t].phase) then 1 else 0)
                - (if t in s.threads && In(c, s.threads[t].phase) then 1 else 0)
    ensures Tally(u.count, c) == |Those(u.threads, c)|
  {
    ThoseMove(s.threads, t, u.threads[t], c);
  }

  /** Each route is counted at most once for a query. */
  lemma RoomMoves(names: Names, s: State, step: Step, c: Class)
    requires IsQueryStep(step) && Enabled(names, s, step) && Roomy(c)
    ensures var u := Do(names, s, step);
            && step.t in u.threads
            && Room(u.count, c) - Room(s.count, c)
                 >= (if In(c, u.threads[step.t].phase) then 1 else 0)
                  - (if step.t in s.threads && In(c, s.threads[step.t].phase) then 1 else 0)
  {
    if IsEarly(step) { RoomMovesEarly(names, s, step, c); } else { RoomMovesLate(names, s, step, c); }
  }

  lemma RoomMovesEarly(names: Names, s: State, step: Step, c: Class)
    requires IsQueryStep(step) && Enabled(names, s, step) && Roomy(c)
    requires IsEarly(step)
    ensures var u := Do(names, s, step);
            && step.t in u.threads
            && Room(u.count, c) - Room(s.count, c)
                 >= (if In(c, u.threads[step.t].phase) then 1 else 0)
                  - (if step.t in s.threads && In(c, s.threads[step.t].phase) then 1 else 0)
  {}

  lemma RoomMovesLate(names: Names, s: State, step: Step, c: Class)
    requires IsQueryStep(step) && Enabled(names, s, step) && Roomy(c)
    requires !IsEarly(step)
    ensures var u := Do(names, s, step);
            && step.t in u.threads
            && Room(u.count, c) - Room(s.count, c)
                 >= (if In(c, u.threads[step.t].phase) then 1 else 0)
                  - (if step.t in s.threads && In(c, s.threads[step.t].phase) then 1 else 0)
  {}

  lemma RoomKept(s: State, u: State, t: nat, c: Class)
    requires OneMoves(s, u, t) && Roomy(c) && |Those(s.threads, c)| <= Room(s.count, c)
    requires Room(u.count, c) - Room(s.count, c)
               >= (if In(c, u.threads[t].phase) then 1 else 0)
                - (if t in s.threads && In(c, s.threads[t].phase) then 1 else 0)
    ensures |Those(u.threads, c)| <= Room(u.count, c)
  {
    ThoseMove(s.threads, t, u.threads[t], c);
  }

  lemma RoomStep(names: Names, s: State, step: Step)
    requires RoomLeft(s) && Enabled(names, s, step)
    ensures RoomLeft(Do(names, s, step))
  {
    var u := Do(names, s, step);
    forall c | Roomy(c)
      ensures |Those(u.threads, c)| <= Room(u.count, c)
    {
      assert |Those(s.threads, c)| <= Room(s.count, c);
      if IsQueryStep(step) {
        RoomMoves(names, s, step, c);
        QueryStepMoves(names, s, step);
        RoomKept(s, u, step.t, c);
      }
    }
  }

  lemma InvStep(names: Names, s: State, step: Step)
    requires Inv(names, s) && Enabled(names, s, step)
    ensures Inv(names, Do(names, s, step))
  {
    UniformStep(names, s, step);
    QueriesStep(names, s, step);
    CacheStep(names, s, step);
    HitsStep(names, s, step);
    TokensStep(names, s, step);
    CountsStep(names, s, step);
    RoomStep(names, s, step);
  }

  lemma {:induction false} InvRun(names: Names, s: State, steps: seq<Step>)
    requires Inv(names, s) && Legal(names, s, steps)
    ensures Inv(names, Exec(names, s, steps))
    decreases |steps|
  {
    if steps != [] {
      InvStep(names, s, steps[0]);
      InvRun(names, Do(names, s, steps[0]), steps[1..]);
    }
  }

  lemma InvInit(names: Names, cfg: Config)
    ensures Inv(names, Init(cfg))
  {}
}
