/** The latency budget of Filter. Time passes only while everybody is waiting for a dial: code
    between blocking points takes no time, a free slot goes to a waiting worker at once, and a
    dial ends by its timeout. Calls of other Filters may share the dials. */
module ProbeTiming {
  import opened Prelude
  import opened Probing

  /** The workers of group g that had their slot by clock value `at`. */
  function AcquiredBy(s: State, g: nat, at: int): set<nat> {
    set t | t in s.threads && s.threads[t].group == g && !s.threads[t].phase.Queued? && s.threads[t].phase.acq <= at
  }

  predicate Unfinished(s: State, t: nat)
    requires t in s.threads
  {
    !s.threads[t].phase.Finished?
  }

  /** Nothing to do for t but wait for a dial to end or a slot to be freed. */
  predicate Blocked(c: Params, s: State, t: nat, d: nat)
    requires t in s.threads
  {
    var th := s.threads[t];
    match th.phase
    case Queued => |Held(s, th.group)| >= PROBE_CONCURRENCY
    case Dialing(_, _, f) => f < |s.flights| && s.clock + d <= s.flights[f].start + c.timeout
    case Waiting(_, _, f) => f < |s.flights| && s.flights[f].outcome.Pending?
    case Finished(_, _, _, _) => true
    case _ => false
  }

  predicate TimelyTick(c: Params, s: State, d: nat) {
    forall t :: t in s.threads ==> Blocked(c, s, t, d)
  }

  predicate Timely(c: Params, s: State, step: Step) {
    Enabled(c, s, step) && (step.Tick? ==> TimelyTick(c, s, step.d))
  }

  predicate TimelyRun(c: Params, s: State, steps: seq<Step>)
    ensures TimelyRun(c, s, steps) ==> Legal(c, s, steps)
    decreases |steps|
  {
    steps == [] || (Timely(c, s, steps[0]) && TimelyRun(c, Do(c, s, steps[0]), steps[1..]))
  }

  function CeilDiv(n: nat, m: nat): nat
    requires m > 0
  {
    (n + m - 1) / m
  }

  /** ceil(n / 4) * timeout. */
  function Budget(c: Params, n: nat): nat {
    CeilDiv(n, PROBE_CONCURRENCY) * c.timeout
  }

  // ---- the timed invariant ----

  /** How long a worker may hold its slot at each point of Check. */
  predicate Punctual(c: Params, s: State, t: nat)
    requires t in s.threads
  {
    match s.threads[t].phase
    case Queued => true
    case Slotted(acq) => acq == s.clock
    case Called(acq, now) => acq == s.clock
    case Dialing(acq, _, f) => f < |s.flights| && s.flights[f].start == acq <= s.clock <= acq + c.timeout
    case Dialed(acq, _, f, _) => f < |s.flights| && s.flights[f].start == acq <= s.clock <= acq + c.timeout
    case Waiting(acq, _, f) =>
      f < |s.flights| && s.flights[f].start <= acq <= s.clock <= s.flights[f].start + c.timeout
    case Returned(acq, _, _) => acq <= s.clock <= acq + c.timeout
    case Finished(acq, _, _, at) => acq <= at
  }

  /** Once the clock is past the j-th round of timeouts, 4(j+1) workers have had their slot. */
  predicate OnSchedule(c: Params, s: State, g: nat, j: nat)
    requires g in s.groups
  {
    s.groups[g] + j * c.timeout < s.clock ==>
      |AcquiredBy(s, g, s.groups[g] + j * c.timeout)| >= Min(|Members(s, g)|, PROBE_CONCURRENCY * (j + 1))
  }

  function Min(a: int, b: int): int { if a < b then a else b }

  ghost predicate Scheduled(c: Params, s: State) {
    forall g, j: nat :: g in s.groups ==> OnSchedule(c, s, g, j)
  }

  predicate AllPunctual(c: Params, s: State) {
    forall t :: t in s.threads ==> Punctual(c, s, t)
  }

  predicate InTime(c: Params, s: State) {
    forall t :: t in s.threads && s.threads[t].phase.Finished? && s.threads[t].group in s.groups ==>
      s.threads[t].phase.at <= s.groups[s.threads[t].group] + Budget(c, |Members(s, s.threads[t].group)|)
  }

  ghost predicate TimedInv(c: Params, s: State) {
    Inv(c, s) && AllPunctual(c, s) && Scheduled(c, s) && InTime(c, s)
  }

  // ---- arithmetic ----

  lemma NextRound(j: nat, timeout: nat)
    ensures (j + 1) * timeout == j * timeout + timeout
  {}

  lemma RoundsCover(n: nat)
    requires n > 0
    ensures CeilDiv(n, PROBE_CONCURRENCY) >= 1
    ensures PROBE_CONCURRENCY * CeilDiv(n, PROBE_CONCURRENCY) >= n
  {}

  // ---- the deadline follows from the schedule ----

  lemma {:induction false} FullSubset<T>(a: set<T>, b: set<T>)
    requires a <= b && |a| >= |b|
    ensures a == b
  {
    if a != b {
      var x :| x in b && x !in a;
      SubsetSize(a, b - {x});
    }
  }

  /** A Filter with an unfinished worker is within its budget. */
  lemma Deadline(c: Params, s: State, t: nat)
    requires TimedInv(c, s) && t in s.threads && Unfinished(s, t)
    ensures s.threads[t].group in s.groups
    ensures s.clock <= s.groups[s.threads[t].group] + Budget(c, |Members(s, s.threads[t].group)|)
  {
    var g := s.threads[t].group;
    assert ThreadSound(c, s, t) && Punctual(c, s, t);
    var n, made := |Members(s, g)|, s.groups[g];
    assert t in Members(s, g);
    RoundsCover(n);
    var j := CeilDiv(n, PROBE_CONCURRENCY) - 1;
    NextRound(j, c.timeout);
    assert OnSchedule(c, s, g, j);
    var got := AcquiredBy(s, g, made + j * c.timeout);
    if s.clock > made + Budget(c, n) {
      FullSubset(got, Members(s, g));
    }
    assert s.clock > made + Budget(c, n) ==> t in got;
  }

  // ---- steps other than Tick ----

  lemma PunctualKeeps(c: Params, s: State, s': State, t: nat)
    requires t in s.threads && t in s'.threads && s'.threads[t] == s.threads[t] && s'.clock == s.clock
    requires |s.flights| <= |s'.flights|
    requires forall f :: 0 <= f < |s.flights| ==> s'.flights[f].start == s.flights[f].start
    requires Punctual(c, s, t)
    ensures Punctual(c, s', t)
  {}

  /** A flight somebody may join started no later than now and is within its timeout. */
  lemma JoinedFlight(c: Params, s: State, f: nat)
    requires Inv(c, s) && AllPunctual(c, s) && f < |s.flights| && s.flights[f].outcome.Pending?
    ensures s.flights[f].start <= s.clock <= s.flights[f].start + c.timeout
  {
    assert FlightSound(s, f) && Punctual(c, s, s.flights[f].owner);
  }

  lemma PunctualMover(c: Params, s: State, step: Step)
    requires Inv(c, s) && AllPunctual(c, s) && Enabled(c, s, step) && !step.Tick? && !step.Spawn?
    ensures Punctual(c, Do(c, s, step), step.t)
  {
    var t := step.t;
    assert Punctual(c, s, t);
    if step.Enter? {
      var key := s.threads[t].key;
      if !Fresh(s.cache, key, s.threads[t].phase.now) && key in s.inflight {
        JoinedFlight(c, s, s.inflight[key]);
      }
    }
  }

  lemma PunctualStep(c: Params, s: State, step: Step)
    requires Inv(c, s) && AllPunctual(c, s) && Enabled(c, s, step) && !step.Tick?
    ensures AllPunctual(c, Do(c, s, step))
  {
    var s' := Do(c, s, step);
    StartsKept(c, s, step);
    forall t | t in s'.threads ensures Punctual(c, s', t) {
      if !step.Spawn? && step.t == t {
        PunctualMover(c, s, step);
      } else if t in s.threads {
        PunctualKeeps(c, s, s', t);
      }
    }
  }

  lemma StartsKept(c: Params, s: State, step: Step)
    requires Enabled(c, s, step)
    ensures var s' := Do(c, s, step);
            && |s.flights| <= |s'.flights|
            && (forall f :: 0 <= f < |s.flights| ==> s'.flights[f].start == s.flights[f].start)
            && (forall t :: t in s.threads ==>
                  t in s'.threads && (step.Tick? || step.Spawn? || step.t != t ==> s'.threads[t] == s.threads[t]))
  {}

  lemma GroupsKept(c: Params, s: State, step: Step)
    requires Enabled(c, s, step)
    ensures var s' := Do(c, s, step);
            && (forall t :: t in s.threads ==> t in s'.threads && s'.threads[t].group == s.threads[t].group)
            && (forall t :: t in s'.threads && t !in s.threads ==> step.Spawn? && s'.threads[t].group == step.group)
            && (forall g :: g in s.groups ==> g in s'.groups && s'.groups[g] == s.groups[g])
            && (forall g :: g in s'.groups && g !in s.groups ==>
                  step.Spawn? && g == step.group && s'.groups[g] == s.clock)
  {}

  lemma GroupKeeps(c: Params, s: State, step: Step, g: nat, at: int)
    requires Enabled(c, s, step) && g in s.groups
    ensures var s' := Do(c, s, step);
            && g in s'.groups && s'.groups[g] == s.groups[g] && Members(s', g) == Members(s, g)
            && |AcquiredBy(s, g, at)| <= |AcquiredBy(s', g, at)|
  {
    GroupsKept(c, s, step);
    AcquisitionsKept(c, s, step, g, at);
    SubsetSize(AcquiredBy(s, g, at), AcquiredBy(Do(c, s, step), g, at));
  }

  /** No step takes a slot acquisition back, and none but Spawn adds members to a group. */
  lemma ScheduledStep(c: Params, s: State, step: Step)
    requires Scheduled(c, s) && Enabled(c, s, step) && !step.Tick?
    ensures Scheduled(c, Do(c, s, step))
  {
    GroupsKept(c, s, step);
    forall g, j: nat | g in Do(c, s, step).groups ensures OnSchedule(c, Do(c, s, step), g, j) {
      ScheduledOne(c, s, step, g, j);
    }
  }

  lemma ScheduledOne(c: Params, s: State, step: Step, g: nat, j: nat)
    requires Scheduled(c, s) && Enabled(c, s, step) && !step.Tick?
    requires g in Do(c, s, step).groups
    ensures OnSchedule(c, Do(c, s, step), g, j)
  {
    GroupsKept(c, s, step);
    if g in s.groups {
      assert OnSchedule(c, s, g, j);
      GroupKeeps(c, s, step, g, s.groups[g] + j * c.timeout);
      ClockKept(c, s, step);
    } else {
      MulMonotone(0, j, c.timeout);
    }
  }

  lemma ClockKept(c: Params, s: State, step: Step)
    requires Enabled(c, s, step) && !step.Tick?
    ensures Do(c, s, step).clock == s.clock
  {}

  lemma AcquisitionsKept(c: Params, s: State, step: Step, g: nat, at: int)
    requires Enabled(c, s, step)
    ensures AcquiredBy(s, g, at) <= AcquiredBy(Do(c, s, step), g, at)
  {}

  /** Only a release finishes a worker; everybody else who is finished was finished before. */
  lemma FinishedBefore(c: Params, s: State, step: Step, t: nat)
    requires Enabled(c, s, step) && !step.Release? && t in Do(c, s, step).threads
    requires Do(c, s, step).threads[t].phase.Finished?
    ensures t in s.threads && Do(c, s, step).threads[t] == s.threads[t]
  {}

  lemma InTimeRelease(c: Params, s: State, r: nat, t: nat)
    requires TimedInv(c, s) && Enabled(c, s, Release(r)) && t in s.threads && s.threads[t].group in s.groups
    requires Do(c, s, Release(r)).threads[t].phase.Finished?
    ensures Do(c, s, Release(r)).threads[t].phase.at
         <= s.groups[s.threads[t].group] + Budget(c, |Members(s, s.threads[t].group)|)
  {
    assert ThreadSound(c, s, t);
    if Unfinished(s, t) { Deadline(c, s, t); }
  }

  lemma InTimeStep(c: Params, s: State, step: Step)
    requires TimedInv(c, s) && Enabled(c, s, step) && !step.Tick?
    ensures InTime(c, Do(c, s, step))
  {
    var s' := Do(c, s, step);
    forall t | t in s'.threads && s'.threads[t].phase.Finished? && s'.threads[t].group in s'.groups
      ensures s'.threads[t].phase.at <= s'.groups[s'.threads[t].group] + Budget(c, |Members(s', s'.threads[t].group)|)
    {
      if step.Release? {
        assert t in s.threads && s'.threads[t].group == s.threads[t].group && s'.groups == s.groups;
        InTimeRelease(c, s, step.t, t);
      } else {
        FinishedBefore(c, s, step, t);
        assert ThreadSound(c, s, t);
      }
      GroupKeeps(c, s, step, s.threads[t].group, 0);
    }
  }

  // ---- Tick ----

  lemma PunctualTick(c: Params, s: State, d: nat)
    requires Inv(c, s) && AllPunctual(c, s) && TimelyTick(c, s, d)
    ensures AllPunctual(c, s.(clock := s.clock + d))
  {
    var s' := s.(clock := s.clock + d);
    forall t | t in s'.threads ensures Punctual(c, s', t) {
      assert Punctual(c, s, t) && Blocked(c, s, t, d);
      if s.threads[t].phase.Waiting? {
        var f := s.threads[t].phase.flight;
        assert FlightSound(s, f) && Blocked(c, s, s.flights[f].owner, d);
      }
    }
  }

  /** The pigeonhole step of list scheduling. While some worker of g has no slot, all four slots
      are held by workers that got theirs within the last timeout, so whoever had a slot a full
      timeout ago is finished: four more have had theirs now. */
  lemma RoundAdds(c: Params, s: State, d: nat, g: nat, before: int)
    requires Inv(c, s) && AllPunctual(c, s) && TimelyTick(c, s, d)
    requires |AcquiredBy(s, g, s.clock)| < |Members(s, g)|
    requires before + c.timeout < s.clock + d
    ensures |AcquiredBy(s, g, s.clock)| >= |AcquiredBy(s, g, before)| + PROBE_CONCURRENCY
  {
    var held, old_ := Held(s, g), AcquiredBy(s, g, before);
    assert exists t :: t in Members(s, g) && s.threads[t].phase.Queued? by {
      if forall t :: t in Members(s, g) ==> !s.threads[t].phase.Queued? {
        forall t | t in Members(s, g) ensures t in AcquiredBy(s, g, s.clock) { assert ThreadSound(c, s, t); }
        SubsetSize(Members(s, g), AcquiredBy(s, g, s.clock));
      }
    }
    var q :| q in Members(s, g) && s.threads[q].phase.Queued?;
    assert Blocked(c, s, q, d);
    forall t | t in held ensures t !in old_ && t in AcquiredBy(s, g, s.clock) { HolderIsRecent(c, s, d, t); }
    forall t | t in old_ ensures t in AcquiredBy(s, g, s.clock) { assert ThreadSound(c, s, t) && Punctual(c, s, t); }
    DisjointSize(held, old_, AcquiredBy(s, g, s.clock));
  }

  lemma HolderIsRecent(c: Params, s: State, d: nat, t: nat)
    requires Inv(c, s) && AllPunctual(c, s) && TimelyTick(c, s, d) && t in s.threads && HoldsSlot(s.threads[t].phase)
    ensures s.threads[t].phase.acq <= s.clock && s.clock + d <= s.threads[t].phase.acq + c.timeout
  {
    assert Punctual(c, s, t) && Blocked(c, s, t, d) && ThreadSound(c, s, t);
    if s.threads[t].phase.Waiting? {
      var f := s.threads[t].phase.flight;
      assert FlightSound(s, f) && Blocked(c, s, s.flights[f].owner, d);
    }
  }

  lemma DisjointSize<T>(a: set<T>, b: set<T>, whole: set<T>)
    requires a !! b && a <= whole && b <= whole
    ensures |a| + |b| <= |whole|
  {
    assert |a + b| == |a| + |b|;
    SubsetSize(a + b, whole);
  }

  /** Who belongs to a group and who has a slot does not depend on the clock. */
  lemma TickSees(s: State, d: nat, g: nat, at: int)
    ensures Members(s.(clock := s.clock + d), g) == Members(s, g)
    ensures AcquiredBy(s.(clock := s.clock + d), g, at) == AcquiredBy(s, g, at)
  {}

  lemma AcquiredGrows(s: State, g: nat, a: int, b: int)
    requires a <= b
    ensures |AcquiredBy(s, g, a)| <= |AcquiredBy(s, g, b)|
  {
    SubsetSize(AcquiredBy(s, g, a), AcquiredBy(s, g, b));
  }

  lemma ScheduleCount(c: Params, s: State, d: nat, g: nat, j: nat, at: int)
    requires Inv(c, s) && AllPunctual(c, s) && Scheduled(c, s) && TimelyTick(c, s, d) && g in s.groups
    requires at == s.groups[g] + j * c.timeout < s.clock + d
    ensures |AcquiredBy(s, g, at)| >= Min(|Members(s, g)|, PROBE_CONCURRENCY * (j + 1))
  {
    if s.clock <= at {
      AcquiredGrows(s, g, s.clock, at);
      if |AcquiredBy(s, g, s.clock)| < |Members(s, g)| {
        ScheduleRound(c, s, d, g, j);
      }
    } else {
      assert OnSchedule(c, s, g, j);
    }
  }

  lemma ScheduleTick(c: Params, s: State, d: nat, g: nat, j: nat)
    requires Inv(c, s) && AllPunctual(c, s) && Scheduled(c, s) && TimelyTick(c, s, d) && g in s.groups
    ensures OnSchedule(c, s.(clock := s.clock + d), g, j)
  {
    var at := s.groups[g] + j * c.timeout;
    TickSees(s, d, g, at);
    if at < s.clock + d { ScheduleCount(c, s, d, g, j, at); }
  }

  lemma ScheduleRound(c: Params, s: State, d: nat, g: nat, j: nat)
    requires Inv(c, s) && AllPunctual(c, s) && Scheduled(c, s) && TimelyTick(c, s, d) && g in s.groups
    requires s.clock <= s.groups[g] + j * c.timeout < s.clock + d
    requires |AcquiredBy(s, g, s.clock)| < |Members(s, g)|
    ensures |AcquiredBy(s, g, s.clock)| >= PROBE_CONCURRENCY * (j + 1)
  {
    if j == 0 {
      RoundAdds(c, s, d, g, s.groups[g] - c.timeout);
    } else {
      var before := s.groups[g] + (j - 1) * c.timeout;
      NextRound(j - 1, c.timeout);
      RoundAdds(c, s, d, g, before);
      SomeHolder(c, s, d, g);
      assert OnSchedule(c, s, g, j - 1);
      assert AcquiredBy(s, g, before) <= AcquiredBy(s, g, s.clock);
      SubsetSize(AcquiredBy(s, g, before), AcquiredBy(s, g, s.clock));
    }
  }

  /** While a worker waits for a slot the clock cannot jump by more than one timeout. */
  lemma SomeHolder(c: Params, s: State, d: nat, g: nat)
    requires Inv(c, s) && AllPunctual(c, s) && TimelyTick(c, s, d)
    requires |AcquiredBy(s, g, s.clock)| < |Members(s, g)|
    ensures d <= c.timeout
  {
    if Held(s, g) != {} {
      var t :| t in Held(s, g);
      HolderIsRecent(c, s, d, t);
    } else {
      forall t | t in Members(s, g) ensures t in AcquiredBy(s, g, s.clock) {
        assert ThreadSound(c, s, t) && Blocked(c, s, t, d);
      }
      SubsetSize(Members(s, g), AcquiredBy(s, g, s.clock));
    }
  }

  lemma TimedStep(c: Params, s: State, step: Step)
    requires TimedInv(c, s) && Timely(c, s, step)
    ensures TimedInv(c, Do(c, s, step))
  {
    match step
    case Tick(d) => TimedTick(c, s, d);
    case _ => TimedAction(c, s, step);
  }

  lemma TimedAction(c: Params, s: State, step: Step)
    requires TimedInv(c, s) && Enabled(c, s, step) && !step.Tick?
    ensures TimedInv(c, Do(c, s, step))
  {
    InvStep(c, s, step);
    PunctualStep(c, s, step);
    ScheduledStep(c, s, step);
    InTimeStep(c, s, step);
  }

  lemma TimedTick(c: Params, s: State, d: nat)
    requires TimedInv(c, s) && TimelyTick(c, s, d)
    ensures TimedInv(c, Do(c, s, Tick(d)))
  {
    var s' := s.(clock := s.clock + d);
    InvTick(c, s, d);
    PunctualTick(c, s, d);
    forall g, j: nat | g in s'.groups ensures OnSchedule(c, s', g, j) { ScheduleTick(c, s, d, g, j); }
    forall g ensures Members(s', g) == Members(s, g) {}
  }

  lemma {:induction false} TimedRun(c: Params, s: State, steps: seq<Step>)
    requires TimedInv(c, s) && TimelyRun(c, s, steps)
    ensures TimedInv(c, Exec(c, s, steps))
    decreases |steps|
  {
    if steps != [] {
      TimedStep(c, s, steps[0]);
      TimedRun(c, Do(c, s, steps[0]), steps[1..]);
    }
  }

  // ---- the documented bound ----

  /** One Filter of n probed addresses ends within ceil(n/4) * timeout of its start, however many
      other Filters run and share dials with it. */
  lemma FilterLatency(c: Params, steps: seq<Step>, t: nat)
    requires TimelyRun(c, INIT, steps)
    requires t in Exec(c, INIT, steps).threads
    ensures var s := Exec(c, INIT, steps);
            var g := s.threads[t].group;
            && g in s.groups
            && (if s.threads[t].phase.Finished? then s.threads[t].phase.at else s.clock)
                 <= s.groups[g] + Budget(c, |Members(s, g)|)
  {
    var s := Exec(c, INIT, steps);
    TimedRun(c, INIT, steps);
    assert ThreadSound(c, s, t);
    if Unfinished(s, t) { Deadline(c, s, t); }
  }

  lemma BudgetMonotone(c: Params, n: nat, max: nat)
    requires n <= max
    ensures Budget(c, n) <= Budget(c, max)
  {
    MulMonotone(CeilDiv(n, PROBE_CONCURRENCY), CeilDiv(max, PROBE_CONCURRENCY), c.timeout);
  }

  lemma MulMonotone(a: nat, b: nat, m: nat)
    requires a <= b
    ensures a * m <= b * m
  {}

  /** The A and AAAA families in series: when the second Filter starts at the moment a worker of
      the first one finished, both are over within 2 * ceil(max/4) * timeout of the first start. */
  lemma TwoFamiliesLatency(c: Params, steps: seq<Step>, max: nat, t4: nat, t6: nat)
    requires TimelyRun(c, INIT, steps)
    requires var s := Exec(c, INIT, steps);
             && t4 in s.threads && t6 in s.threads
             && |Members(s, s.threads[t4].group)| <= max && |Members(s, s.threads[t6].group)| <= max
             && s.threads[t4].phase.Finished? && s.threads[t6].group in s.groups
             && s.groups[s.threads[t6].group] == s.threads[t4].phase.at
    ensures var s := Exec(c, INIT, steps);
            && s.threads[t4].group in s.groups
            && (if s.threads[t6].phase.Finished? then s.threads[t6].phase.at else s.clock)
                 <= s.groups[s.threads[t4].group] + 2 * (CeilDiv(max, PROBE_CONCURRENCY) * c.timeout)
  {
    var s := Exec(c, INIT, steps);
    FilterLatency(c, steps, t4);
    FilterLatency(c, steps, t6);
    BudgetMonotone(c, |Members(s, s.threads[t4].group)|, max);
    BudgetMonotone(c, |Members(s, s.threads[t6].group)|, max);
  }
}
