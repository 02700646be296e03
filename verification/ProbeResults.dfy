/** Where the results of a Filter call come from: each is the end of a dial of the very address its
    worker was started for, told by the steps of the run. */
module ProbeResults {
  import opened Prelude
  import opened Probing
  import Filter

  // ---- what a run of steps says ----

  /** The clock after some steps. */
  function Time(steps: seq<Step>): int {
    if steps == [] then 0
    else
      var n := |steps| - 1;
      Time(steps[..n]) + (if steps[n].Tick? then steps[n].d else 0)
  }

  /** Thread t was started to check ip. */
  predicate StartedFor(steps: seq<Step>, t: nat, ip: string) {
    exists i :: 0 <= i < |steps| && steps[i].Spawn? && t in steps[i].workers && steps[i].workers[t] == ip
  }

  predicate CalledAt(steps: seq<Step>, t: nat, at: int) {
    exists i :: 0 <= i < |steps| && steps[i] == Call(t) && Time(steps[..i]) == at
  }

  predicate DialEnded(steps: seq<Step>, t: nat, res: Result) {
    DialEnds(t, res) in steps
  }

  predicate PublishedAt(steps: seq<Step>, t: nat, at: int) {
    exists i :: 0 <= i < |steps| && steps[i].Publish? && steps[i].t == t && Time(steps[..i]) == at
  }

  /** Some worker started for ip called Check at `begun`, its dial ended with res, and it published that
      at `ended`. */
  predicate DialOf(steps: seq<Step>, ip: string, u: nat, begun: int, ended: int, res: Result) {
    StartedFor(steps, u, ip) && CalledAt(steps, u, begun) && DialEnded(steps, u, res) && PublishedAt(steps, u, ended)
  }

  /** A dial of ip ended with res, and it was published after the call at `now` or began less than a cache
      lifetime before it. */
  ghost predicate DialledFor(c: Params, steps: seq<Step>, ip: string, now: int, res: Result) {
    exists u, begun, ended ::
      DialOf(steps, ip, u, begun, ended, res) && (now <= ended || now < begun + c.ttl)
  }

  // ---- the history of threads and dials ----

  predicate ThreadTraced(steps: seq<Step>, t: nat, th: Thread) {
    && StartedFor(steps, t, th.key)
    && (!th.phase.Queued? && !th.phase.Slotted? ==> CalledAt(steps, t, th.phase.now))
    && (th.phase.Dialed? ==> DialEnded(steps, t, th.phase.res))
  }

  predicate FlightTraced(steps: seq<Step>, fl: Flight) {
    && StartedFor(steps, fl.owner, fl.key) && CalledAt(steps, fl.owner, fl.now)
    && (fl.outcome.Done? ==>
          DialEnded(steps, fl.owner, fl.outcome.res) && PublishedAt(steps, fl.owner, fl.outcome.at))
  }

  /** A worker's address never changes. */
  predicate StartsTraced(steps: seq<Step>, s: State) {
    forall i, t :: 0 <= i < |steps| && steps[i].Spawn? && t in steps[i].workers ==>
      t in s.threads && s.threads[t].key == steps[i].workers[t] && s.threads[t].group == steps[i].group
  }

  predicate History(steps: seq<Step>, s: State) {
    && s.clock == Time(steps)
    && (forall t :: t in s.threads ==> ThreadTraced(steps, t, s.threads[t]))
    && (forall f :: 0 <= f < |s.flights| ==> FlightTraced(steps, s.flights[f]))
    && StartsTraced(steps, s)
  }

  // ---- one more step ----

  lemma TimeNext(steps: seq<Step>, step: Step)
    ensures Time(steps + [step]) == Time(steps) + (if step.Tick? then step.d else 0)
  {
    assert (steps + [step])[..|steps|] == steps;
  }

  lemma Started(steps: seq<Step>, step: Step, t: nat, ip: string)
    requires StartedFor(steps, t, ip)
    ensures StartedFor(steps + [step], t, ip)
  {
    var i :| 0 <= i < |steps| && steps[i].Spawn? && t in steps[i].workers && steps[i].workers[t] == ip;
    assert (steps + [step])[i] == steps[i];
  }

  lemma Called(steps: seq<Step>, step: Step, t: nat, at: int)
    requires CalledAt(steps, t, at) || (step == Call(t) && at == Time(steps))
    ensures CalledAt(steps + [step], t, at)
  {
    var more := steps + [step];
    if CalledAt(steps, t, at) {
      var i :| 0 <= i < |steps| && steps[i] == Call(t) && Time(steps[..i]) == at;
      assert more[i] == steps[i] && more[..i] == steps[..i];
    } else {
      assert more[|steps|] == step && more[..|steps|] == steps;
    }
  }

  lemma Published(steps: seq<Step>, step: Step, t: nat, at: int)
    requires PublishedAt(steps, t, at) || (step.Publish? && step.t == t && at == Time(steps))
    ensures PublishedAt(steps + [step], t, at)
  {
    var more := steps + [step];
    if PublishedAt(steps, t, at) {
      var i :| 0 <= i < |steps| && steps[i].Publish? && steps[i].t == t && Time(steps[..i]) == at;
      assert more[i] == steps[i] && more[..i] == steps[..i];
    } else {
      assert more[|steps|] == step && more[..|steps|] == steps;
    }
  }

  lemma ThreadKeeps(steps: seq<Step>, step: Step, t: nat, th: Thread)
    requires ThreadTraced(steps, t, th)
    ensures ThreadTraced(steps + [step], t, th)
  {
    Started(steps, step, t, th.key);
    if !th.phase.Queued? && !th.phase.Slotted? { Called(steps, step, t, th.phase.now); }
  }

  lemma FlightKeeps(steps: seq<Step>, step: Step, fl: Flight)
    requires FlightTraced(steps, fl)
    ensures FlightTraced(steps + [step], fl)
  {
    Started(steps, step, fl.owner, fl.key);
    Called(steps, step, fl.owner, fl.now);
    if fl.outcome.Done? { Published(steps, step, fl.owner, fl.outcome.at); }
  }

  lemma SpawnTraced(c: Params, steps: seq<Step>, s: State, g: nat, workers: map<nat, string>)
    requires History(steps, s) && Enabled(c, s, Spawn(g, workers))
    ensures History(steps + [Spawn(g, workers)], Do(c, s, Spawn(g, workers)))
  {
    var step := Spawn(g, workers);
    var more, u := steps + [step], Do(c, s, step);
    TimeNext(steps, step);
    forall t | t in u.threads
      ensures ThreadTraced(more, t, u.threads[t])
    {
      if t in workers {
        assert more[|steps|] == step;
      } else {
        ThreadKeeps(steps, step, t, s.threads[t]);
      }
    }
    FlightsKeep(steps, step, s.flights);
    StartsKeep(steps, step, s, u);
  }

  lemma FlightsKeep(steps: seq<Step>, step: Step, flights: seq<Flight>)
    requires forall f :: 0 <= f < |flights| ==> FlightTraced(steps, flights[f])
    ensures forall f :: 0 <= f < |flights| ==> FlightTraced(steps + [step], flights[f])
  {
    forall f | 0 <= f < |flights|
      ensures FlightTraced(steps + [step], flights[f])
    {
      FlightKeeps(steps, step, flights[f]);
    }
  }

  lemma StartsKeep(steps: seq<Step>, step: Step, s: State, u: State)
    requires StartsTraced(steps, s)
    requires forall t :: t in s.threads ==>
               t in u.threads && u.threads[t].key == s.threads[t].key && u.threads[t].group == s.threads[t].group
    requires step.Spawn? ==>
               forall t :: t in step.workers ==>
                 t in u.threads && u.threads[t].key == step.workers[t] && u.threads[t].group == step.group
    ensures StartsTraced(steps + [step], u)
  {}

  /** A step of thread t, told by what it leaves of t and of the flights. */
  lemma MoveTraced(steps: seq<Step>, step: Step, s: State, u: State, t: nat)
    requires History(steps, s) && t in s.threads && !step.Spawn? && !step.Tick?
    requires u.clock == s.clock && t in u.threads && u.threads == s.threads[t := u.threads[t]]
    requires u.threads[t].key == s.threads[t].key && u.threads[t].group == s.threads[t].group
    requires ThreadTraced(steps + [step], t, u.threads[t])
    requires forall f :: 0 <= f < |u.flights| ==>
               (f < |s.flights| && u.flights[f] == s.flights[f]) || FlightTraced(steps + [step], u.flights[f])
    ensures History(steps + [step], u)
  {
    TimeNext(steps, step);
    forall v | v in u.threads
      ensures ThreadTraced(steps + [step], v, u.threads[v])
    {
      if v != t { ThreadKeeps(steps, step, v, s.threads[v]); }
    }
    FlightsKeep(steps, step, s.flights);
    StartsKeep(steps, step, s, u);
  }

  /** Moving on after the call keeps what is known of a thread. */
  lemma StillTraced(steps: seq<Step>, step: Step, t: nat, before: Thread, after: Thread)
    requires ThreadTraced(steps, t, before) && !before.phase.Queued? && !before.phase.Slotted?
    requires after.key == before.key && !after.phase.Queued? && !after.phase.Slotted?
    requires after.phase.now == before.phase.now
    requires after.phase.Dialed? ==> step == DialEnds(t, after.phase.res)
    ensures ThreadTraced(steps + [step], t, after)
  {
    Started(steps, step, t, before.key);
    Called(steps, step, t, before.phase.now);
  }

  lemma FlightStarts(steps: seq<Step>, step: Step, t: nat, th: Thread, start: int)
    requires ThreadTraced(steps, t, th) && th.phase.Called?
    ensures FlightTraced(steps + [step], Flight(th.key, t, th.phase.now, start, Pending))
  {
    Started(steps, step, t, th.key);
    Called(steps, step, t, th.phase.now);
  }

  lemma FlightEnds(steps: seq<Step>, step: Step, t: nat, th: Thread, fl: Flight)
    requires ThreadTraced(steps, t, th) && th.phase.Dialed? && step.Publish? && step.t == t
    requires fl.owner == t && fl.key == th.key && fl.now == th.phase.now
    requires fl.outcome == Done(th.phase.res, Time(steps))
    ensures FlightTraced(steps + [step], fl)
  {
    Started(steps, step, t, th.key);
    Called(steps, step, t, th.phase.now);
    Published(steps, step, t, fl.outcome.at);
  }

  lemma EnterTraced(c: Params, steps: seq<Step>, s: State, t: nat)
    requires History(steps, s) && Enabled(c, s, Enter(t))
    ensures History(steps + [Enter(t)], DoEnter(s, t))
  {
    var th, u := s.threads[t], DoEnter(s, t);
    assert ThreadTraced(steps, t, th);
    EnterMoves(s, t);
    StillTraced(steps, Enter(t), t, th, u.threads[t]);
    FlightStarts(steps, Enter(t), t, th, s.clock);
    MoveTraced(steps, Enter(t), s, u, t);
  }

  /** The first critical section moves its thread and adds at most its own flight. */
  lemma EnterMoves(s: State, t: nat)
    requires t in s.threads && s.threads[t].phase.Called?
    ensures var th, u := s.threads[t], DoEnter(s, t);
            && u.clock == s.clock && t in u.threads && u.threads == s.threads[t := u.threads[t]]
            && u.threads[t].key == th.key && u.threads[t].group == th.group
            && var ph := u.threads[t].phase;
            && (ph.Returned? || ph.Waiting? || ph.Dialing?) && ph.now == th.phase.now
            && (u.flights == s.flights || u.flights == s.flights + [Flight(th.key, t, th.phase.now, s.clock, Pending)])
  {}

  /** The second critical section moves its thread and ends its flight. */
  lemma PublishMoves(c: Params, s: State, t: nat, victim: string)
    requires Enabled(c, s, Publish(t, victim)) && OwnsFlight(s, t, s.threads[t].phase.flight, s.threads[t].phase.now)
    ensures var th, u := s.threads[t], DoPublish(c, s, t, victim);
            var f := th.phase.flight;
            && u.clock == s.clock && t in u.threads && u.threads == s.threads[t := u.threads[t]]
            && u.threads[t].key == th.key && u.threads[t].group == th.group
            && u.threads[t].phase.Returned? && u.threads[t].phase.now == th.phase.now
            && u.flights == s.flights[f := u.flights[f]] && u.flights[f].owner == t && u.flights[f].key == th.key
            && u.flights[f].now == th.phase.now && u.flights[f].outcome == Done(th.phase.res, s.clock)
  {}

  lemma PublishTraced(c: Params, steps: seq<Step>, s: State, t: nat, victim: string)
    requires History(steps, s) && Enabled(c, s, Publish(t, victim))
    requires OwnsFlight(s, t, s.threads[t].phase.flight, s.threads[t].phase.now)
    ensures History(steps + [Publish(t, victim)], DoPublish(c, s, t, victim))
  {
    var step, th, u := Publish(t, victim), s.threads[t], DoPublish(c, s, t, victim);
    assert ThreadTraced(steps, t, th);
    PublishMoves(c, s, t, victim);
    StillTraced(steps, step, t, th, u.threads[t]);
    FlightEnds(steps, step, t, th, u.flights[th.phase.flight]);
    MoveTraced(steps, step, s, u, t);
  }

  lemma QuietTraced(c: Params, steps: seq<Step>, s: State, step: Step)
    requires History(steps, s) && Enabled(c, s, step)
    requires step.Acquire? || step.Call? || step.DialEnds? || step.Wake? || step.Release?
    ensures History(steps + [step], Do(c, s, step))
  {
    var t, u := step.t, Do(c, s, step);
    if step.Call? || step.Acquire? {
      Started(steps, step, t, s.threads[t].key);
      if step.Call? { Called(steps, step, t, s.clock); }
    } else {
      StillTraced(steps, step, t, s.threads[t], u.threads[t]);
    }
    MoveTraced(steps, step, s, u, t);
  }

  lemma HistoryStep(c: Params, steps: seq<Step>, s: State, step: Step)
    requires Inv(c, s) && History(steps, s) && Enabled(c, s, step)
    ensures History(steps + [step], Do(c, s, step))
  {
    match step
    case Tick(d) =>
      TimeNext(steps, step);
      forall t | t in s.threads
        ensures ThreadTraced(steps + [step], t, s.threads[t])
      {
        ThreadKeeps(steps, step, t, s.threads[t]);
      }
      FlightsKeep(steps, step, s.flights);
      StartsKeep(steps, step, s, Do(c, s, step));
    case Spawn(g, workers) => SpawnTraced(c, steps, s, g, workers);
    case Enter(t) => EnterTraced(c, steps, s, t);
    case Publish(t, victim) =>
      assert ThreadSound(c, s, t);
      PublishTraced(c, steps, s, t, victim);
    case _ => QuietTraced(c, steps, s, step);
  }

  lemma {:induction false} HistoryRun(c: Params, past: seq<Step>, s: State, steps: seq<Step>)
    requires Inv(c, s) && History(past, s) && Legal(c, s, steps)
    ensures History(past + steps, Exec(c, s, steps))
    decreases |steps|
  {
    if steps == [] {
      assert past + steps == past;
    } else {
      assert past + steps == (past + [steps[0]]) + steps[1..];
      HistoryStep(c, past, s, steps[0]);
      InvStep(c, s, steps[0]);
      HistoryRun(c, past + [steps[0]], Do(c, s, steps[0]), steps[1..]);
    }
  }

  lemma HistoryFromStart(c: Params, steps: seq<Step>)
    requires Legal(c, INIT, steps)
    ensures Inv(c, Exec(c, INIT, steps)) && History(steps, Exec(c, INIT, steps))
  {
    InvRun(c, INIT, steps);
    HistoryRun(c, [], INIT, steps);
    assert [] + steps == steps;
  }

  // ---- the results ----

  lemma BackedIsDialled(c: Params, steps: seq<Step>, fl: Flight, key: string, now: int, res: Result)
    requires FlightTraced(steps, fl) && Backs(c, fl, key, now, res)
    ensures DialledFor(c, steps, key, now, res)
  {
    assert DialOf(steps, key, fl.owner, fl.now, fl.outcome.at, res);
  }

  lemma FinishedIsDialled(c: Params, steps: seq<Step>, s: State, t: nat)
    requires Inv(c, s) && History(steps, s) && t in s.threads && s.threads[t].phase.Finished?
    ensures CalledAt(steps, t, s.threads[t].phase.now)
    ensures DialledFor(c, steps, s.threads[t].key, s.threads[t].phase.now, s.threads[t].phase.res)
  {
    var key, now, res := s.threads[t].key, s.threads[t].phase.now, s.threads[t].phase.res;
    assert ThreadTraced(steps, t, s.threads[t]);
    assert Justified(c, s.flights, key, now, res) by { assert ThreadSound(c, s, t); }
    var f :| 0 <= f < |s.flights| && Backs(c, s.flights[f], key, now, res);
    BackedIsDialled(c, steps, s.flights[f], key, now, res);
  }

  lemma StartedIsThere(steps: seq<Step>, s: State, i: nat, t: nat)
    requires History(steps, s) && i < |steps| && steps[i].Spawn? && t in steps[i].workers
    ensures t in s.threads && s.threads[t].key == steps[i].workers[t]
  {}

  /** Over every run: a worker that was started for an address and has finished returns the end of a dial
      of that very address, published after the worker called Check or begun less than a cache lifetime
      before that. */
  lemma ResultsAreDials(c: Params, steps: seq<Step>, i: nat, t: nat)
    requires Legal(c, INIT, steps) && i < |steps| && steps[i].Spawn? && t in steps[i].workers
    ensures var s := Exec(c, INIT, steps);
            && t in s.threads
            && var ph := s.threads[t].phase;
               ph.Finished? ==>
                 && CalledAt(steps, t, ph.now)
                 && DialledFor(c, steps, steps[i].workers[t], ph.now, ph.res)
  {
    HistoryFromStart(c, steps);
    var s := Exec(c, INIT, steps);
    StartedIsThere(steps, s, i, t);
    if s.threads[t].phase.Finished? { FinishedIsDialled(c, steps, s, t); }
  }

  // ---- one Filter call ----

  /** Step i starts one worker for each of the first addresses of a list, as many as `max` allows. */
  predicate StartsFilter(steps: seq<Step>, i: nat, ips: seq<string>, ids: seq<nat>, max: int) {
    && i < |steps| && steps[i].Spawn?
    && |ids| == (if 0 < max < |ips| then max else |ips|)
    && forall k :: 0 <= k < |ids| ==> ids[k] in steps[i].workers && steps[i].workers[ids[k]] == ips[k]
  }

  /** All workers are done. */
  predicate AllFinished(s: State, ids: seq<nat>) {
    forall k :: 0 <= k < |ids| ==> ids[k] in s.threads && s.threads[ids[k]].phase.Finished?
  }

  /** What Check returned, position by position. */
  function ResultsOf(s: State, ids: seq<nat>): seq<Result>
    requires AllFinished(s, ids)
  {
    seq(|ids|, k requires 0 <= k < |ids| => s.threads[ids[k]].phase.res)
  }

  /** The result at one position is the end of a dial of the address at that position. */
  ghost predicate DialledAt(c: Params, steps: seq<Step>, t: nat, ip: string, res: Result) {
    exists now :: CalledAt(steps, t, now) && DialledFor(c, steps, ip, now, res)
  }

  /** What Filter gets to see when its workers are done is, position by position, how dials of its
      addresses ended. */
  lemma FilterSeesItsDials(c: Params, steps: seq<Step>, i: nat, ips: seq<string>, ids: seq<nat>, max: int)
    requires Legal(c, INIT, steps) && StartsFilter(steps, i, ips, ids, max)
    requires AllFinished(Exec(c, INIT, steps), ids)
    ensures var results := ResultsOf(Exec(c, INIT, steps), ids);
            && |results| == Filter.Limit(|ips|, max) <= |ips|
            && forall k :: 0 <= k < |results| ==> DialledAt(c, steps, ids[k], ips[k], results[k])
  {
    var results := ResultsOf(Exec(c, INIT, steps), ids);
    forall k | 0 <= k < |ids|
      ensures DialledAt(c, steps, ids[k], ips[k], results[k])
    {
      ResultsAreDials(c, steps, i, ids[k]);
    }
  }
}
