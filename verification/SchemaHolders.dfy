/** Whose the lock file is and since when, told by the steps of a run: it is there exactly for a process
    inside or one that crashed, a stale one is a process that has been inside for more than ten seconds or
    has crashed, and nobody is turned away before ten seconds are over. */
module SchemaHolders {
  import opened Prelude
  import opened SchemaPattern
  import opened SchemaText
  import opened SchemaLock
  import opened SchemaRuns

  // ---- the lock file goes with its holder ----

  /** A lock file belongs to a process inside fn or to one that has crashed. */
  predicate Held(s: State) {
    s.lock.Some? ==>
      s.lock.value.owner in s.procs && (InFn(s.procs[s.lock.value.owner]) || s.procs[s.lock.value.owner].Crashed?)
  }

  lemma HeldStep(w: Wording, s: State, step: Step)
    requires Held(s) && Enabled(s, step)
    ensures Held(Do(w, s, step))
  {}

  lemma {:induction false} HeldRun(w: Wording, s: State, steps: seq<Step>)
    requires Held(s) && Legal(w, s, steps)
    ensures Held(Exec(w, s, steps))
    decreases |steps|
  {
    if steps != [] {
      HeldStep(w, s, steps[0]);
      HeldRun(w, Do(w, s, steps[0]), steps[1..]);
    }
  }

  /** In every run: a lock file that exists belongs to a process inside, or to one that has crashed. */
  lemma LockIsHeld(w: Wording, orig: string, steps: seq<Step>)
    requires Legal(w, Init(orig), steps)
    ensures Held(Exec(w, Init(orig), steps))
  {
    HeldRun(w, Init(orig), steps);
  }

  predicate SomebodyInside(s: State) {
    exists p :: p in s.procs && InFn(s.procs[p])
  }

  predicate SomebodyCrashed(s: State) {
    exists p :: p in s.procs && s.procs[p].Crashed?
  }

  /** When nobody is inside and nobody has crashed, a new process is inside after its first attempt. */
  lemma NobodyInTheWay(w: Wording, orig: string, steps: seq<Step>, p: nat)
    requires Legal(w, Init(orig), steps)
    requires var s := Exec(w, Init(orig), steps); p !in s.procs && !SomebodyInside(s) && !SomebodyCrashed(s)
    ensures var s := Do(w, Exec(w, Init(orig), steps), Start(p));
            Enabled(s, Open(p)) && Do(w, s, Open(p)).procs[p] == Reading
  {
    LockIsHeld(w, orig, steps);
  }

  /** Along a careful run without crashes, opening the lock file gets a process in exactly when nobody is
      inside. */
  lemma OpenIff(w: Wording, orig: string, steps: seq<Step>, p: nat)
    requires Careful(w, Init(orig), steps)
    requires var s := Exec(w, Init(orig), steps); Enabled(s, Open(p)) && !SomebodyCrashed(s)
    ensures var s := Exec(w, Init(orig), steps);
            InFn(Do(w, s, Open(p)).procs[p]) <==> !SomebodyInside(s)
  {
    LockIsHeld(w, orig, steps);
    OwnedRun(w, Init(orig), steps);
  }

  lemma {:induction false} OwnedRun(w: Wording, s: State, steps: seq<Step>)
    requires Owned(s) && Careful(w, s, steps)
    ensures Owned(Exec(w, s, steps))
    decreases |steps|
  {
    if steps != [] {
      OwnedStep(w, s, steps[0]);
      OwnedRun(w, Do(w, s, steps[0]), steps[1..]);
    }
  }

  // ---- times, told by the steps ----

  function Time(steps: seq<Step>): int {
    if steps == [] then 0
    else
      var n := |steps| - 1;
      Time(steps[..n]) + (if steps[n].Tick? then steps[n].d else 0)
  }

  /** When p last opened, or tried to open, the lock file. */
  function LastOpen(steps: seq<Step>, p: nat): Option<int> {
    if steps == [] then None
    else
      var n := |steps| - 1;
      if steps[n] == Open(p) then Some(Time(steps[..n])) else LastOpen(steps[..n], p)
  }

  function StartOf(steps: seq<Step>, p: nat): Option<int> {
    if steps == [] then None
    else
      var n := |steps| - 1;
      if steps[n] == Start(p) then Some(Time(steps[..n])) else StartOf(steps[..n], p)
  }

  predicate Waits(ph: Phase) {
    ph.Trying? || ph.Blocked? || ph.Stealing?
  }

  /** The clock, the age of the lock file, and how long a waiting process is ready to wait. */
  ghost predicate Timed(steps: seq<Step>, s: State) {
    && s.clock == Time(steps) && Held(s)
    && (s.lock.Some? ==> LastOpen(steps, s.lock.value.owner) == Some(s.lock.value.mtime))
    && (forall p :: p in s.procs && Waits(s.procs[p]) ==> StartOf(steps, p) == Some(s.procs[p].deadline - 10_000))
    && (forall p :: p in s.procs && EndsWith(s.procs[p], Err(LockTimeout)) ==> GaveUp(steps, p))
    && (forall p :: p !in s.procs ==> StartOf(steps, p).None?)
  }

  predicate EndsWith(ph: Phase, ret: Ret) {
    (ph.Unlocking? || ph.Finished?) && ph.ret == ret
  }

  /** p has waited for more than ten seconds since it started. */
  predicate GaveUp(steps: seq<Step>, p: nat) {
    StartOf(steps, p).Some? && Time(steps) > StartOf(steps, p).value + 10_000
  }

  lemma NextTimes(steps: seq<Step>, step: Step, p: nat)
    ensures var more := steps + [step];
            && Time(more) == Time(steps) + (if step.Tick? then step.d else 0)
            && LastOpen(more, p) == (if step == Open(p) then Some(Time(steps)) else LastOpen(steps, p))
            && StartOf(more, p) == (if step == Start(p) then Some(Time(steps)) else StartOf(steps, p))
  {
    assert (steps + [step])[..|steps|] == steps;
  }

  lemma TimedLock(w: Wording, steps: seq<Step>, s: State, step: Step)
    requires Timed(steps, s) && Enabled(s, step)
    ensures var u := Do(w, s, step);
            u.lock.Some? ==> LastOpen(steps + [step], u.lock.value.owner) == Some(u.lock.value.mtime)
  {
    var u := Do(w, s, step);
    if u.lock.Some? { NextTimes(steps, step, u.lock.value.owner); }
  }

  /** A process that waits did so before with the same deadline, or has just started. */
  lemma WaiterBefore(w: Wording, s: State, step: Step, p: nat)
    requires Enabled(s, step) && p in Do(w, s, step).procs && Waits(Do(w, s, step).procs[p])
    ensures var ph := Do(w, s, step).procs[p];
            if step == Start(p) then ph.deadline == s.clock + 10_000
            else p in s.procs && Waits(s.procs[p]) && s.procs[p].deadline == ph.deadline
  {
    if p in s.procs && (step.Tick? || p != step.p) { OthersKeep(w, s, step, p); }
  }

  lemma TimedWaiter(w: Wording, steps: seq<Step>, s: State, step: Step, p: nat)
    requires Timed(steps, s) && Enabled(s, step) && p in Do(w, s, step).procs && Waits(Do(w, s, step).procs[p])
    ensures StartOf(steps + [step], p) == Some(Do(w, s, step).procs[p].deadline - 10_000)
  {
    NextTimes(steps, step, p);
    WaiterBefore(w, s, step, p);
    if step != Start(p) { DeadlineKnown(steps, s, p); }
  }

  lemma DeadlineKnown(steps: seq<Step>, s: State, p: nat)
    requires Timed(steps, s) && p in s.procs && Waits(s.procs[p])
    ensures StartOf(steps, p) == Some(s.procs[p].deadline - 10_000)
  {}

  /** A process that ends with a timeout has done so before, or has just looked after its deadline. */
  lemma QuitterBefore(w: Wording, s: State, step: Step, p: nat)
    requires Enabled(s, step) && p in Do(w, s, step).procs
    requires EndsWith(Do(w, s, step).procs[p], Err(LockTimeout))
    ensures p in s.procs
    ensures EndsWith(s.procs[p], Err(LockTimeout))
            || (step == Stat(p) && Waits(s.procs[p]) && s.clock > s.procs[p].deadline)
  {
    if p in s.procs {
      if step.Tick? || p != step.p {
        OthersKeep(w, s, step, p);
      } else if step.Read? {
        AfterReading(Detect(w, s.file));
      }
    }
  }

  lemma TimedQuitter(w: Wording, steps: seq<Step>, s: State, step: Step, p: nat)
    requires Timed(steps, s) && Enabled(s, step) && p in Do(w, s, step).procs
    requires EndsWith(Do(w, s, step).procs[p], Err(LockTimeout))
    ensures GaveUp(steps + [step], p)
  {
    NextTimes(steps, step, p);
    QuitterBefore(w, s, step, p);
    if EndsWith(s.procs[p], Err(LockTimeout)) {
      assert GaveUp(steps, p);
    } else {
      DeadlineKnown(steps, s, p);
    }
  }

  lemma TimedStep(w: Wording, steps: seq<Step>, s: State, step: Step)
    requires Timed(steps, s) && Enabled(s, step)
    ensures Timed(steps + [step], Do(w, s, step))
  {
    var u := Do(w, s, step);
    NextTimes(steps, step, 0);
    HeldStep(w, s, step);
    TimedLock(w, steps, s, step);
    forall p | p in u.procs
      ensures Waits(u.procs[p]) ==> StartOf(steps + [step], p) == Some(u.procs[p].deadline - 10_000)
      ensures EndsWith(u.procs[p], Err(LockTimeout)) ==> GaveUp(steps + [step], p)
    {
      if Waits(u.procs[p]) { TimedWaiter(w, steps, s, step, p); }
      if EndsWith(u.procs[p], Err(LockTimeout)) { TimedQuitter(w, steps, s, step, p); }
    }
    forall p | p !in u.procs
      ensures StartOf(steps + [step], p).None?
    {
      NextTimes(steps, step, p);
    }
  }

  lemma {:induction false} TimedRun(w: Wording, past: seq<Step>, s: State, steps: seq<Step>)
    requires Timed(past, s) && Legal(w, s, steps)
    ensures Timed(past + steps, Exec(w, s, steps))
    decreases |steps|
  {
    if steps == [] {
      assert past + steps == past;
    } else {
      assert past + steps == (past + [steps[0]]) + steps[1..];
      TimedStep(w, past, s, steps[0]);
      TimedRun(w, past + [steps[0]], Do(w, s, steps[0]), steps[1..]);
    }
  }

  lemma TimedFromStart(w: Wording, orig: string, steps: seq<Step>)
    requires Legal(w, Init(orig), steps)
    ensures Timed(steps, Exec(w, Init(orig), steps))
  {
    TimedRun(w, [], Init(orig), steps);
    assert [] + steps == steps;
  }

  /** In every run: a process gives up waiting for the lock file only when more than ten seconds have gone
      by since it started. */
  lemma TimeoutAfterTen(w: Wording, orig: string, steps: seq<Step>, p: nat)
    requires Legal(w, Init(orig), steps)
    requires var s := Exec(w, Init(orig), steps); p in s.procs && s.procs[p] == Finished(Err(LockTimeout))
    ensures GaveUp(steps, p)
  {
    TimedFromStart(w, orig, steps);
  }

  /** The lock file was opened more than ten seconds ago. */
  predicate Old(steps: seq<Step>, s: State) {
    && s.lock.Some?
    && LastOpen(steps, s.lock.value.owner).Some?
    && Time(steps) > LastOpen(steps, s.lock.value.owner).value + 10_000
  }

  /** What a waiting process does when it looks at the lock file: it goes about removing the file exactly
      if its holder opened it more than ten seconds ago; otherwise it gives up exactly if more than ten
      seconds have gone by since its own start. */
  lemma LookDecides(w: Wording, orig: string, steps: seq<Step>, p: nat)
    requires Legal(w, Init(orig), steps) && Enabled(Exec(w, Init(orig), steps), Stat(p))
    ensures var s := Exec(w, Init(orig), steps);
            var ph := Do(w, s, Stat(p)).procs[p];
            && (ph.Stealing? <==> Old(steps, s))
            && (ph == Finished(Err(LockTimeout)) <==> !Old(steps, s) && GaveUp(steps, p))
            && (ph.Trying? <==> !Old(steps, s) && !GaveUp(steps, p))
  {
    TimedFromStart(w, orig, steps);
  }

  // ---- runs in which nobody dawdles ----

  /** Nobody crashes, and nobody stays inside for more than ten seconds after opening the lock file. */
  predicate Brisk(w: Wording, past: seq<Step>, s: State, steps: seq<Step>)
    requires Legal(w, s, steps)
    decreases |steps|
  {
    && !SomebodyCrashed(s)
    && (forall p :: p in s.procs && InFn(s.procs[p]) && LastOpen(past, p).Some? ==>
          Time(past) <= LastOpen(past, p).value + 10_000)
    && (steps == [] || Brisk(w, past + [steps[0]], Do(w, s, steps[0]), steps[1..]))
  }

  /** Then no lock file ever becomes stale. */
  lemma {:induction false} BriskIsPrompt(w: Wording, past: seq<Step>, s: State, steps: seq<Step>)
    requires Timed(past, s) && Legal(w, s, steps) && Brisk(w, past, s, steps)
    ensures PromptRun(w, s, steps)
    decreases |steps|
  {
    if steps != [] {
      TimedStep(w, past, s, steps[0]);
      BriskIsPrompt(w, past + [steps[0]], Do(w, s, steps[0]), steps[1..]);
    }
  }

  /** So when nobody crashes and nobody stays inside for more than ten seconds, any number of processes
      exclude each other, and one rewrite at most takes the file to the result. */
  lemma BriskEnsure(w: Wording, orig: string, steps: seq<Step>)
    requires Proper(w) && Settles(w, orig) && Legal(w, Init(orig), steps) && Brisk(w, [], Init(orig), steps)
    ensures Delivers(w, orig, Exec(w, Init(orig), steps))
  {
    BriskIsPrompt(w, [], Init(orig), steps);
    PromptEnsure(w, orig, steps);
  }
}
