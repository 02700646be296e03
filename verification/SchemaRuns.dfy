/** Whole runs of the schema migration: concurrent processes, failed renames, crashes, and the
    race of two processes that both take a lock for stale. */
module SchemaRuns {
  import opened Prelude
  import opened Text
  import opened SchemaPattern
  import opened SchemaText
  import opened SchemaLock

  // ---- every run whatsoever ----

  /** In every run the file is the original migrated some number of times, never a part of it, and
      a process reports a migration exactly if it renamed onto the file. */
  lemma AlwaysWhole(w: Wording, orig: string, steps: seq<Step>)
    requires Legal(w, Init(orig), steps)
    ensures var s := Exec(w, Init(orig), steps);
            && SomeWhole(w, orig, s.file)
            && (forall p :: p in s.procs && s.procs[p].Finished? ==> (s.procs[p].ret == Ok(true) <==> p in s.writers))
  {
    assert Whole(w, orig, orig, 0);
    HonestRun(w, orig, Init(orig), steps);
    var s := Exec(w, Init(orig), steps);
    forall p | p in s.procs && s.procs[p].Finished? ensures s.procs[p].ret == Ok(true) <==> p in s.writers {
      assert ProcSound(w, orig, s, p);
    }
  }

  /** The file changes only by a rename, and then to all of what the renamer prepared. */
  lemma FileChangesAtOnce(w: Wording, orig: string, s: State, step: Step)
    requires Honest(w, orig, s) && Enabled(s, step)
    ensures Do(w, s, step).file == if step.RenameOk? then s.procs[step.p].out else s.file
  {
    if step.RenameOk? { assert ProcSound(w, orig, s, step.p); }
  }

  /** A process gives up renaming only after six attempts and 2250 ms of waiting, with the file
      as it was and its temporary file gone. */
  lemma GivesUpAfterSix(w: Wording, orig: string, s: State, p: nat)
    requires Honest(w, orig, s) && Enabled(s, RenameFails(p))
    ensures var s' := Do(w, s, RenameFails(p));
            s'.procs[p] == Unlocking(Err(RenameFailed)) ==>
              && s.procs[p].attempt == 5 && s.procs[p].slept == 2250
              && s'.file == s.file && p !in s'.temps
  {
    RenamerSlept(w, orig, s, p);
  }

  lemma RenamerSlept(w: Wording, orig: string, s: State, p: nat)
    requires Honest(w, orig, s) && p in s.procs && s.procs[p].Renaming?
    ensures s.procs[p].attempt < RENAME_ATTEMPTS
    ensures s.procs[p].attempt == 5 ==> s.procs[p].slept == 2250
  {
    assert ProcSound(w, orig, s, p);
  }

  /** What a process inside does next with a file that assigns the number n, read as the 64-bit number v. */
  lemma ReadDecides(w: Wording, s: State, p: nat, n: nat)
    requires Enabled(s, Read(p)) && Assigns(w, s.file, n)
    ensures var v, u := Wrap64(n), Do(w, s, Read(p));
            && u.file == s.file
            && u.procs[p] == (if v > 1 then Unlocking(Err(NewerSchema))
                              else if v == 1 then Unlocking(Ok(false))
                              else if v == 0 then Rereading
                              else Unlocking(Err(NoChain)))
  {
    VersionDecides(w, s.file, n);
  }

  // ---- one pass, given mutual exclusion ----

  /** A second migration of the file would change nothing (see EnsuredIdempotent). */
  predicate Settles(w: Wording, orig: string) {
    !(Detect(w, orig) == 0 && ZeroShadowed(w, orig))
  }

  predicate Exclusive(s: State) {
    forall p, q :: p in s.procs && q in s.procs && InFn(s.procs[p]) && InFn(s.procs[q]) ==> p == q
  }

  /** What is to become of the file: the original, the result, and whether a rewrite is due. */
  datatype Plan = Plan(orig: string, goal: string, due: bool)

  function PlanOf(w: Wording, orig: string): Plan {
    Plan(orig, Ensured(w, orig), Detect(w, orig) == 0)
  }

  predicate PhaseFits(pl: Plan, s: State, ph: Phase) {
    match ph
    case Rereading => pl.due && s.writers == []
    case Writing(out, _) => pl.due && s.writers == [] && out == pl.goal
    case Renaming(out, _, _) => pl.due && s.writers == [] && out == pl.goal
    case Unlocking(ret) => ret.Ok? ==> s.file == pl.goal
    case Finished(ret) => ret.Ok? ==> s.file == pl.goal
    case _ => true
  }

  /** The file is the original until the only rename, and the migrated original after it. */
  predicate OnePass(pl: Plan, s: State) {
    && |s.writers| <= 1
    && (s.writers == [] ==> s.file == pl.orig)
    && (s.writers != [] ==> pl.due && s.file == pl.goal)
    && forall p :: p in s.procs ==> PhaseFits(pl, s, s.procs[p])
  }

  lemma ReadFits(w: Wording, orig: string, s: State)
    requires Proper(w) && Settles(w, orig) && OnePass(PlanOf(w, orig), s)
    ensures PhaseFits(PlanOf(w, orig), s, AfterRead(Detect(w, s.file)))
  {
    if Detect(w, orig) == 0 { MigratedVersion(w, orig); }
  }

  /** Any step but a rename leaves file and history, so only the mover's phase matters. */
  lemma QuietFits(w: Wording, pl: Plan, s: State, step: Step)
    requires OnePass(pl, s) && Enabled(s, step) && !step.RenameOk?
    requires !step.Tick? && step.p in Do(w, s, step).procs ==> PhaseFits(pl, s, Do(w, s, step).procs[step.p])
    ensures OnePass(pl, Do(w, s, step))
  {}

  lemma MoverFits(w: Wording, orig: string, s: State, step: Step)
    requires Proper(w) && Settles(w, orig) && OnePass(PlanOf(w, orig), s)
    requires Enabled(s, step) && !step.RenameOk? && !step.Tick?
    ensures step.p in Do(w, s, step).procs ==> PhaseFits(PlanOf(w, orig), s, Do(w, s, step).procs[step.p])
  {
    match step
    case Read(p) => ReadMoves(w, orig, s, p);
    case Reread(p) => RereadMoves(w, orig, s, p);
    case _ => LocalFits(w, PlanOf(w, orig), s, step);
  }

  lemma ReadMoves(w: Wording, orig: string, s: State, p: nat)
    requires Proper(w) && Settles(w, orig) && OnePass(PlanOf(w, orig), s) && Enabled(s, Read(p))
    ensures PhaseFits(PlanOf(w, orig), s, Do(w, s, Read(p)).procs[p])
  {
    ReadFits(w, orig, s);
    assert Do(w, s, Read(p)).procs[p] == AfterRead(Detect(w, s.file));
  }

  lemma RereadMoves(w: Wording, orig: string, s: State, p: nat)
    requires OnePass(PlanOf(w, orig), s) && Enabled(s, Reread(p))
    ensures PhaseFits(PlanOf(w, orig), s, Do(w, s, Reread(p)).procs[p])
  {}

  lemma LocalFits(w: Wording, pl: Plan, s: State, step: Step)
    requires Enabled(s, step) && !step.RenameOk? && !step.Tick? && !step.Read? && !step.Reread?
    requires OnePass(pl, s)
    ensures step.p in Do(w, s, step).procs ==> PhaseFits(pl, s, Do(w, s, step).procs[step.p])
  {}

  lemma OnePassStep(w: Wording, orig: string, s: State, step: Step)
    requires Proper(w) && Settles(w, orig)
    requires Honest(w, orig, s) && OnePass(PlanOf(w, orig), s) && Exclusive(s) && Enabled(s, step)
    ensures OnePass(PlanOf(w, orig), Do(w, s, step))
  {
    if step.RenameOk? {
      assert ProcSound(w, orig, s, step.p);
      OnePassRename(w, PlanOf(w, orig), s, step.p);
    } else {
      if !step.Tick? { MoverFits(w, orig, s, step); }
      QuietFits(w, PlanOf(w, orig), s, step);
    }
  }

  lemma OnePassRename(w: Wording, pl: Plan, s: State, p: nat)
    requires OnePass(pl, s) && Exclusive(s) && Enabled(s, RenameOk(p)) && s.temps[p] == s.procs[p].out
    ensures OnePass(pl, Do(w, s, RenameOk(p)))
  {}

  // ---- exactly when processes exclude each other ----

  /** The lock file belongs to a process that is inside fn. */
  predicate Live(s: State) {
    s.lock.Some? && s.lock.value.owner in s.procs && InFn(s.procs[s.lock.value.owner])
  }

  /** No process ever removes the lock file of a process inside fn. Locks may become stale, be judged
      stale by several processes, and be removed. */
  predicate Careful(w: Wording, s: State, steps: seq<Step>)
    ensures Careful(w, s, steps) ==> Legal(w, s, steps)
    decreases |steps|
  {
    steps == [] || (
      && Enabled(s, steps[0]) && (steps[0].Steal? ==> !Live(s))
      && Careful(w, Do(w, s, steps[0]), steps[1..]))
  }

  /** Only one process is inside fn, and that stays so whoever opens the lock file next. */
  predicate Secure(w: Wording, s: State) {
    Exclusive(s) && forall p :: p in s.procs && Enabled(s, Open(p)) ==> Exclusive(Do(w, s, Open(p)))
  }

  predicate SecureAlong(w: Wording, s: State, steps: seq<Step>)
    requires Legal(w, s, steps)
    decreases |steps|
  {
    Secure(w, s) && (steps == [] || SecureAlong(w, Do(w, s, steps[0]), steps[1..]))
  }

  /** Whoever is inside fn owns the lock file. */
  predicate Owned(s: State) {
    forall p :: p in s.procs && InFn(s.procs[p]) ==> s.lock.Some? && s.lock.value.owner == p
  }

  lemma OwnedStep(w: Wording, s: State, step: Step)
    requires Owned(s) && Enabled(s, step) && (step.Steal? ==> !Live(s))
    ensures Owned(Do(w, s, step))
  {}

  lemma OwnedIsSecure(w: Wording, s: State)
    requires Owned(s)
    ensures Secure(w, s)
  {
    forall p | p in s.procs && Enabled(s, Open(p))
      ensures Owned(Do(w, s, Open(p)))
    {
      OwnedStep(w, s, Open(p));
    }
  }

  /** Removing the lock of a process inside fn lets the remover in beside it. */
  lemma LiveStealInsecure(w: Wording, s: State, p: nat)
    requires Enabled(s, Steal(p)) && Live(s)
    ensures !Secure(w, Do(w, s, Steal(p)))
  {
    var u := Do(w, s, Steal(p));
    var owner := s.lock.value.owner;
    assert owner != p && u.procs[owner] == s.procs[owner];
    assert Enabled(u, Open(p));
    var v := Do(w, u, Open(p));
    assert InFn(v.procs[p]) && InFn(v.procs[owner]);
  }

  lemma {:induction false} ExclusionFrom(w: Wording, s: State, steps: seq<Step>)
    requires Owned(s) && Legal(w, s, steps)
    ensures SecureAlong(w, s, steps) <==> Careful(w, s, steps)
    decreases |steps|
  {
    OwnedIsSecure(w, s);
    if steps != [] {
      var step := steps[0];
      if step.Steal? && Live(s) {
        LiveStealInsecure(w, s, step.p);
      } else {
        OwnedStep(w, s, step);
        ExclusionFrom(w, Do(w, s, step), steps[1..]);
      }
    }
  }

  /** Over every run: the processes exclude each other all along, and would with any next Open, if and
      only if no process ever removes the lock file of one inside fn. */
  lemma ExclusionIff(w: Wording, orig: string, steps: seq<Step>)
    requires Legal(w, Init(orig), steps)
    ensures SecureAlong(w, Init(orig), steps) <==> Careful(w, Init(orig), steps)
  {
    ExclusionFrom(w, Init(orig), steps);
  }

  // ---- concurrent processes, crashes and recoveries ----

  ghost predicate Sequential(w: Wording, orig: string, s: State) {
    Honest(w, orig, s) && OnePass(PlanOf(w, orig), s) && Owned(s)
  }

  lemma InitSequential(w: Wording, orig: string)
    ensures Sequential(w, orig, Init(orig))
  {
    assert Whole(w, orig, orig, 0);
  }

  lemma {:induction false} CarefulKeeps(w: Wording, orig: string, s: State, steps: seq<Step>)
    requires Proper(w) && Settles(w, orig) && Careful(w, s, steps) && Sequential(w, orig, s)
    ensures Sequential(w, orig, Exec(w, s, steps))
    decreases |steps|
  {
    if steps != [] {
      HonestStep(w, orig, s, steps[0]);
      OnePassStep(w, orig, s, steps[0]);
      OwnedStep(w, s, steps[0]);
      CarefulKeeps(w, orig, Do(w, s, steps[0]), steps[1..]);
    }
  }

  /** What a run owes its users: at most one process inside fn, at most one rewrite, the file the
      original or the result of one sequential migration, and success means the latter. */
  predicate Delivers(w: Wording, orig: string, s: State) {
    && Exclusive(s) && |s.writers| <= 1
    && (s.file == orig || s.file == Ensured(w, orig))
    && (forall p :: p in s.procs && s.procs[p].Finished? && s.procs[p].ret.Ok? ==> s.file == Ensured(w, orig))
    && (forall p :: p in s.procs && s.procs[p] == Finished(Ok(true)) ==> s.writers == [p])
  }

  lemma SequentialDelivers(w: Wording, orig: string, s: State)
    requires Sequential(w, orig, s)
    ensures Delivers(w, orig, s)
  {
    forall p | p in s.procs && s.procs[p].Finished? && s.procs[p].ret.Ok?
      ensures s.file == Ensured(w, orig)
    {
      assert PhaseFits(PlanOf(w, orig), s, s.procs[p]);
    }
    forall p | p in s.procs && s.procs[p] == Finished(Ok(true))
      ensures s.writers == [p]
    {
      assert ProcSound(w, orig, s, p);
    }
  }

  /** Any number of processes, crashes and recoveries, as long as nobody removes the lock file of a
      process inside fn. */
  lemma ConcurrentEnsure(w: Wording, orig: string, steps: seq<Step>)
    requires Proper(w) && Settles(w, orig) && Careful(w, Init(orig), steps)
    ensures Delivers(w, orig, Exec(w, Init(orig), steps))
  {
    InitSequential(w, orig);
    CarefulKeeps(w, orig, Init(orig), steps);
    SequentialDelivers(w, orig, Exec(w, Init(orig), steps));
  }

  /** All along the run no lock file is older than ten seconds. */
  predicate PromptRun(w: Wording, s: State, steps: seq<Step>)
    ensures PromptRun(w, s, steps) ==> Legal(w, s, steps)
    decreases |steps|
  {
    !Stale(s) && (steps == [] || (Enabled(s, steps[0]) && PromptRun(w, Do(w, s, steps[0]), steps[1..])))
  }

  predicate NobodySteals(s: State) {
    forall p :: p in s.procs ==> !s.procs[p].Stealing?
  }

  lemma PromptStep(w: Wording, s: State, step: Step)
    requires NobodySteals(s) && !Stale(s) && Enabled(s, step)
    ensures !step.Steal? && NobodySteals(Do(w, s, step))
  {}

  lemma {:induction false} PromptIsCareful(w: Wording, s: State, steps: seq<Step>)
    requires PromptRun(w, s, steps) && NobodySteals(s)
    ensures Careful(w, s, steps)
    decreases |steps|
  {
    if steps != [] {
      PromptStep(w, s, steps[0]);
      PromptIsCareful(w, Do(w, s, steps[0]), steps[1..]);
    }
  }

  /** In particular when no lock file gets older than ten seconds. */
  lemma PromptEnsure(w: Wording, orig: string, steps: seq<Step>)
    requires Proper(w) && Settles(w, orig) && PromptRun(w, Init(orig), steps)
    ensures Delivers(w, orig, Exec(w, Init(orig), steps))
  {
    PromptIsCareful(w, Init(orig), steps);
    ConcurrentEnsure(w, orig, steps);
  }

  predicate OthersDead(s: State, p: nat) {
    forall q :: q in s.procs && q != p ==> Dead(s.procs[q])
  }

  /** Every process acts while all others have finished or crashed; it may itself crash anywhere, and
      any number of processes may follow one another. */
  predicate InTurn(w: Wording, s: State, steps: seq<Step>)
    ensures InTurn(w, s, steps) ==> Legal(w, s, steps)
    decreases |steps|
  {
    steps == [] || (
      && Enabled(s, steps[0]) && (steps[0].Tick? || OthersDead(s, steps[0].p))
      && InTurn(w, Do(w, s, steps[0]), steps[1..]))
  }

  lemma {:induction false} InTurnIsCareful(w: Wording, s: State, steps: seq<Step>)
    requires InTurn(w, s, steps)
    ensures Careful(w, s, steps)
    decreases |steps|
  {
    if steps != [] { InTurnIsCareful(w, Do(w, s, steps[0]), steps[1..]); }
  }

  /** Wherever the processes of a careful run crashed, whatever locks and temporary files they left: any
      number of processes, each crashing anywhere or recovering a stale lock, one after the other, leave
      what a crash-free run makes of the original as soon as one of them succeeds. */
  lemma CrashRecovery(w: Wording, orig: string, before: seq<Step>, after: seq<Step>)
    requires Proper(w) && Settles(w, orig) && Careful(w, Init(orig), before)
    requires InTurn(w, Exec(w, Init(orig), before), after)
    ensures Delivers(w, orig, Exec(w, Exec(w, Init(orig), before), after))
  {
    InitSequential(w, orig);
    CarefulKeeps(w, orig, Init(orig), before);
    InTurnIsCareful(w, Exec(w, Init(orig), before), after);
    CarefulKeeps(w, orig, Exec(w, Init(orig), before), after);
    SequentialDelivers(w, orig, Exec(w, Exec(w, Init(orig), before), after));
  }

  // ---- one process alone ----

  /** Only p acts. */
  predicate Alone(steps: seq<Step>, p: nat) {
    forall i :: 0 <= i < |steps| ==> steps[i].Tick? || steps[i].p == p
  }

  // ---- runs built step by step ----

  ghost predicate Reaches(w: Wording, s: State, t: State) {
    exists steps :: Legal(w, s, steps) && Exec(w, s, steps) == t
  }

  ghost predicate ReachesAlone(w: Wording, s: State, t: State, p: nat) {
    exists steps :: Legal(w, s, steps) && Exec(w, s, steps) == t && Alone(steps, p)
  }

  lemma {:induction false} ExecAppend(w: Wording, s: State, steps: seq<Step>, step: Step)
    requires Legal(w, s, steps) && Enabled(Exec(w, s, steps), step)
    ensures Legal(w, s, steps + [step]) && Exec(w, s, steps + [step]) == Do(w, Exec(w, s, steps), step)
    decreases |steps|
  {
    if steps == [] {
      assert [step][1..] == [] && steps + [step] == [step];
    } else {
      assert (steps + [step])[1..] == steps[1..] + [step];
      ExecAppend(w, Do(w, s, steps[0]), steps[1..], step);
    }
  }

  lemma ReachNext(w: Wording, s: State, t: State, step: Step) returns (t': State)
    requires Reaches(w, s, t) && Enabled(t, step)
    ensures t' == Do(w, t, step) && Reaches(w, s, t')
  {
    var steps :| Legal(w, s, steps) && Exec(w, s, steps) == t;
    ExecAppend(w, s, steps, step);
    t' := Do(w, t, step);
  }

  lemma AloneNext(w: Wording, s: State, t: State, p: nat, step: Step) returns (t': State)
    requires ReachesAlone(w, s, t, p) && Enabled(t, step) && (step.Tick? || step.p == p)
    ensures t' == Do(w, t, step) && ReachesAlone(w, s, t', p)
  {
    var steps :| Legal(w, s, steps) && Exec(w, s, steps) == t && Alone(steps, p);
    ExecAppend(w, s, steps, step);
    t' := Do(w, t, step);
  }

  /** A new process alone can always get the lock: it waits until a left-over lock is stale. */
  lemma CanLock(w: Wording, s: State, p: nat) returns (t: State)
    requires p !in s.procs
    ensures ReachesAlone(w, s, t, p) && t.file == s.file && p in t.procs && t.procs[p] == Reading
  {
    assert Exec(w, s, []) == s && Alone([], p);
    var age := if s.lock.Some? && s.lock.value.mtime > s.clock then s.lock.value.mtime - s.clock else 0;
    t := AloneNext(w, s, s, p, Tick(age + 10_001));
    t := AloneNext(w, s, t, p, Start(p));
    t := AloneNext(w, s, t, p, Open(p));
    if t.procs[p].Blocked? {
      t := AloneNext(w, s, t, p, Stat(p));
      t := AloneNext(w, s, t, p, Steal(p));
      t := AloneNext(w, s, t, p, Open(p));
    }
  }

  /** And it can finish, so recovery from any crash is possible, not only safe. */
  lemma CanRecover(w: Wording, s: State, p: nat)
    requires p !in s.procs && (Detect(w, s.file) == 0 || Detect(w, s.file) == 1)
    ensures exists t :: ReachesAlone(w, s, t, p) && p in t.procs && t.procs[p].Finished? && t.procs[p].ret.Ok?
  {
    var t := CanLock(w, s, p);
    t := AloneNext(w, s, t, p, Read(p));
    if t.procs[p].Rereading? {
      t := CanRewrite(w, s, t, p);
    }
    t := AloneNext(w, s, t, p, Unlock(p));
  }

  lemma CanRewrite(w: Wording, s: State, t0: State, p: nat) returns (t: State)
    requires ReachesAlone(w, s, t0, p) && p in t0.procs && t0.procs[p] == Rereading
    ensures ReachesAlone(w, s, t, p) && p in t.procs && t.procs[p] == Unlocking(Ok(true))
  {
    t := AloneNext(w, s, t0, p, Reread(p));
    t := AloneNext(w, s, t, p, WriteTo(p, |t.procs[p].out|));
    t := AloneNext(w, s, t, p, Close(p));
    t := AloneNext(w, s, t, p, RenameOk(p));
  }

  // ---- the race ----

  /** Process 0 crashes holding the lock. Processes 1 and 2 both find it stale; 1 removes it and
      locks, then 2 removes the lock of 1 and locks too. */
  lemma BothInside(w: Wording, orig: string) returns (t: State)
    ensures Reaches(w, Init(orig), t) && t.file == orig
    ensures 1 in t.procs && 2 in t.procs && t.procs[1] == Reading && t.procs[2] == Reading
  {
    t := BothSeeStale(w, orig);
    t := ReachNext(w, Init(orig), t, Steal(1));
    t := ReachNext(w, Init(orig), t, Open(1));
    t := ReachNext(w, Init(orig), t, Steal(2));
    t := ReachNext(w, Init(orig), t, Open(2));
  }

  lemma BothSeeStale(w: Wording, orig: string) returns (t: State)
    ensures Reaches(w, Init(orig), t) && t.file == orig
    ensures 1 in t.procs && 2 in t.procs && t.procs[1].Stealing? && t.procs[2].Stealing?
  {
    t := LeftOverLock(w, orig);
    t := ReachNext(w, Init(orig), t, Start(1));
    t := ReachNext(w, Init(orig), t, Start(2));
    t := ReachNext(w, Init(orig), t, Open(1));
    t := ReachNext(w, Init(orig), t, Open(2));
    t := ReachNext(w, Init(orig), t, Stat(1));
    t := ReachNext(w, Init(orig), t, Stat(2));
  }

  lemma LeftOverLock(w: Wording, orig: string) returns (t: State)
    ensures Reaches(w, Init(orig), t) && t.file == orig && Stale(t) && t.procs.Keys == {0}
  {
    assert Exec(w, Init(orig), []) == Init(orig);
    t := ReachNext(w, Init(orig), Init(orig), Start(0));
    t := ReachNext(w, Init(orig), t, Open(0));
    t := ReachNext(w, Init(orig), t, Crash(0));
    t := ReachNext(w, Init(orig), t, Tick(10_001));
  }

  /** From there both decide to migrate, and the second reads the file the first has stamped. */
  lemma BothMigrate(w: Wording, s: State, t0: State) returns (t: State)
    requires Reaches(w, s, t0) && Detect(w, t0.file) == 0
    requires 1 in t0.procs && 2 in t0.procs && t0.procs[1] == Reading && t0.procs[2] == Reading
    ensures Reaches(w, s, t) && t.file == Migrate(w, Migrate(w, t0.file))
  {
    t := ReachNext(w, s, t0, Read(1));
    t := ReachNext(w, s, t, Read(2));
    t := OneMigrates(w, s, t, 1);
    t := OneMigrates(w, s, t, 2);
  }

  lemma OneMigrates(w: Wording, s: State, t0: State, p: nat) returns (t: State)
    requires Reaches(w, s, t0) && p in t0.procs && t0.procs[p] == Rereading
    ensures Reaches(w, s, t) && t.file == Migrate(w, t0.file)
    ensures forall q :: q in t0.procs && q != p ==> q in t.procs && t.procs[q] == t0.procs[q]
  {
    t := ReachNext(w, s, t0, Reread(p));
    var out := Migrate(w, t0.file);
    t := ReachNext(w, s, t, WriteTo(p, |out|));
    t := ReachNext(w, s, t, Close(p));
    t := ReachNext(w, s, t, RenameOk(p));
    assert out[..|out|] == out;
  }

  /** A file of the common legacy kind: no line assigns the version at all. */
  predicate NoVersionLine(w: Wording, lines: seq<string>) {
    forall i :: 0 <= i < |lines| ==> LineDigits(w, lines[i]).None?
  }

  predicate NoZeroLine(w: Wording, lines: seq<string>) {
    forall i :: 0 <= i < |lines| ==> !IsCanonicalZero(w, lines[i])
  }

  lemma NoZeroFound(w: Wording, lines: seq<string>)
    requires NoZeroLine(w, lines)
    ensures FirstZeroLine(w, lines) == |lines|
  {}

  lemma StampHasNoZero(w: Wording, lines: seq<string>)
    requires LineDigits(w, w.comment).None? && LineDigits(w, w.line) == Some("1") && LineDigits(w, "").None?
    requires NoVersionLine(w, lines)
    ensures NoZeroLine(w, [w.comment, w.line, ""] + lines)
  {}

  lemma EmptyLineReadsNothing(w: Wording)
    requires KeyWord(w.key)
    ensures LineDigits(w, "").None?
  {}

  /** A stamped file has no zero line, so migrating it again stamps it again. */
  lemma StampTwice(w: Wording, orig: string)
    requires Proper(w) && NoVersionLine(w, Split(orig, '\n'))
    ensures Migrate(w, Migrate(w, orig)) == Stamp(w) + (Stamp(w) + orig)
  {
    var lines := Split(orig, '\n');
    NoZeroFound(w, lines);
    assert Migrate(w, orig) == Stamp(w) + orig;
    EmptyLineReadsNothing(w);
    StampHasNoZero(w, lines);
    StampedLines(w, orig);
    NoZeroFound(w, Split(Stamp(w) + orig, '\n'));
  }

  lemma NoVersionReadsZero(w: Wording, orig: string)
    requires NoVersionLine(w, Split(orig, '\n'))
    ensures Detect(w, orig) == 0
  {}

  /** So without the ten-second assumption the file can be stamped twice: for every file without
      a version line there is a run that does it. */
  lemma RaceStampsTwice(w: Wording, orig: string)
    requires Proper(w) && NoVersionLine(w, Split(orig, '\n'))
    ensures exists t :: Reaches(w, Init(orig), t) && t.file == Stamp(w) + (Stamp(w) + orig)
  {
    StampTwice(w, orig);
    NoVersionReadsZero(w, orig);
    var t := BothInside(w, orig);
    t := BothMigrate(w, Init(orig), t);
  }
}
