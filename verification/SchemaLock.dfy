/** EnsureSchema run by any number of processes on one file: the lock file with stale recovery,
    the two reads, the temporary file and the rename with retries, and crashes anywhere. One step
    is one file-system call; looking at a lock and judging its age is one step. */
module SchemaLock {
  import opened Prelude
  import opened SchemaPattern
  import opened SchemaText

  const STALE_MS: int := 10_000
  const RENAME_ATTEMPTS: nat := 6
  const BACKOFF_MS: nat := 150

  datatype Lock = Lock(owner: nat, mtime: int)

  datatype Failure = NewerSchema | NoChain | Io | RenameFailed | LockTimeout

  datatype Ret = Ok(migrated: bool) | Err(failure: Failure)

  datatype Phase =
    | Trying(deadline: int)                                 // about to open the lock file exclusively
    | Blocked(deadline: int)                                // it existed; about to stat it
    | Stealing(deadline: int)                               // judged stale; about to remove it
    | Reading                                               // in fn: ensureSchemaLocked is about to read
    | Rereading                                             // migrateV0toV1 is about to read again
    | Writing(out: string, n: nat)                          // n characters are in the temporary file
    | Renaming(out: string, attempt: nat, slept: nat)       // about to rename
    | Unlocking(ret: Ret)                                   // about to remove the lock file
    | Finished(ret: Ret)
    | Crashed

  datatype State = State(
    clock: int,
    file: string,
    lock: Option<Lock>,
    temps: map<nat, string>,
    procs: map<nat, Phase>,
    writers: seq<nat>)          // history: who renamed onto the file

  datatype Step =
    | Tick(d: nat)
    | Start(p: nat)
    | Open(p: nat)
    | OpenFails(p: nat)
    | Stat(p: nat)
    | Steal(p: nat)
    | Read(p: nat)
    | Reread(p: nat)
    | WriteTo(p: nat, n: nat)
    | Close(p: nat)
    | RenameOk(p: nat)
    | RenameFails(p: nat)
    | IoFails(p: nat)
    | Unlock(p: nat)
    | Crash(p: nat)

  function Init(orig: string): State {
    State(0, orig, None, map[], map[], [])
  }

  predicate InFn(ph: Phase) {
    ph.Reading? || ph.Rereading? || ph.Writing? || ph.Renaming? || ph.Unlocking?
  }

  predicate Dead(ph: Phase) {
    ph.Finished? || ph.Crashed?
  }

  predicate Stale(s: State) {
    s.lock.Some? && s.clock - s.lock.value.mtime > STALE_MS
  }

  predicate Enabled(s: State, step: Step) {
    match step
    case Tick(_) => true
    case Start(p) => p !in s.procs
    case Open(p) => p in s.procs && s.procs[p].Trying?
    case OpenFails(p) => p in s.procs && s.procs[p].Trying?
    case Stat(p) => p in s.procs && s.procs[p].Blocked?
    case Steal(p) => p in s.procs && s.procs[p].Stealing?
    case Read(p) => p in s.procs && s.procs[p].Reading?
    case Reread(p) => p in s.procs && s.procs[p].Rereading?
    case WriteTo(p, n) => p in s.procs && s.procs[p].Writing? && s.procs[p].n <= n <= |s.procs[p].out|
    case Close(p) => p in s.procs && s.procs[p].Writing? && s.procs[p].n == |s.procs[p].out|
    case RenameOk(p) => p in s.procs && s.procs[p].Renaming? && p in s.temps
    case RenameFails(p) => p in s.procs && s.procs[p].Renaming?
    case IoFails(p) => p in s.procs && (s.procs[p].Reading? || s.procs[p].Rereading? || s.procs[p].Writing?)
    case Unlock(p) => p in s.procs && s.procs[p].Unlocking?
    case Crash(p) => p in s.procs && !Dead(s.procs[p])
  }

  function Move(s: State, p: nat, ph: Phase): State {
    s.(procs := s.procs[p := ph])
  }

  /** What ensureSchemaLocked does next with the version it read. */
  function AfterRead(v: int): Phase {
    match OutcomeOf(v)
    case Unchanged => Unlocking(Ok(false))
    case Migrated => Rereading
    case TooNew => Unlocking(Err(NewerSchema))
    case NoMigration => Unlocking(Err(NoChain))
  }

  function Do(w: Wording, s: State, step: Step): State
    requires Enabled(s, step)
  {
    match step
    case Tick(d) => s.(clock := s.clock + d)
    case Start(p) => Move(s, p, Trying(s.clock + STALE_MS))
    case Open(p) =>
      if s.lock.None? then Move(s, p, Reading).(lock := Some(Lock(p, s.clock)))
      else Move(s, p, Blocked(s.procs[p].deadline))
    case OpenFails(p) => Move(s, p, Finished(Err(Io)))
    case Stat(p) =>
      if Stale(s) then Move(s, p, Stealing(s.procs[p].deadline))
      else if s.clock > s.procs[p].deadline then Move(s, p, Finished(Err(LockTimeout)))
      else Move(s, p, Trying(s.procs[p].deadline))
    case Steal(p) => Move(s, p, Trying(s.procs[p].deadline)).(lock := None)
    case Read(p) => Move(s, p, AfterRead(Detect(w, s.file)))
    case Reread(p) => Move(s, p, Writing(Migrate(w, s.file), 0)).(temps := s.temps[p := ""])
    case WriteTo(p, n) =>
      var out := s.procs[p].out;
      Move(s, p, Writing(out, n)).(temps := s.temps[p := out[..n]])
    case Close(p) => Move(s, p, Renaming(s.procs[p].out, 0, 0))
    case RenameOk(p) =>
      Move(s, p, Unlocking(Ok(true))).(file := s.temps[p], temps := s.temps - {p}, writers := s.writers + [p])
    case RenameFails(p) =>
      var ph := s.procs[p];
      if ph.attempt + 1 >= RENAME_ATTEMPTS then Move(s, p, Unlocking(Err(RenameFailed))).(temps := s.temps - {p})
      else Move(s, p, Renaming(ph.out, ph.attempt + 1, ph.slept + BACKOFF_MS * (ph.attempt + 1)))
    case IoFails(p) => Move(s, p, Unlocking(Err(Io))).(temps := s.temps - {p})
    case Unlock(p) => Move(s, p, Finished(s.procs[p].ret)).(lock := None)
    case Crash(p) => Move(s, p, Crashed)
  }

  predicate Legal(w: Wording, s: State, steps: seq<Step>)
    decreases |steps|
  {
    steps == [] || (Enabled(s, steps[0]) && Legal(w, Do(w, s, steps[0]), steps[1..]))
  }

  function Exec(w: Wording, s: State, steps: seq<Step>): State
    requires Legal(w, s, steps)
    decreases |steps|
  {
    if steps == [] then s else Exec(w, Do(w, s, steps[0]), steps[1..])
  }

  // ---- every run: the file is always whole, results are honest ----

  function Times(w: Wording, orig: string, n: nat): string {
    if n == 0 then orig else Migrate(w, Times(w, orig, n - 1))
  }

  predicate Whole(w: Wording, orig: string, text: string, n: nat) {
    text == Times(w, orig, n)
  }

  /** The original migrated some number of times in sequence. */
  ghost predicate SomeWhole(w: Wording, orig: string, text: string) {
    exists n :: Whole(w, orig, text, n)
  }

  lemma WholeMigrates(w: Wording, orig: string, text: string)
    requires SomeWhole(w, orig, text)
    ensures SomeWhole(w, orig, Migrate(w, text))
  {
    var n :| Whole(w, orig, text, n);
    WholeNext(w, orig, n);
  }

  lemma WholeNext(w: Wording, orig: string, n: nat)
    ensures Whole(w, orig, Migrate(w, Times(w, orig, n)), n + 1)
  {}

  /** What one process knows: its temporary file so far, its share of the history, its sleeps. */
  ghost predicate ProcSound(w: Wording, orig: string, s: State, p: nat)
    requires p in s.procs
  {
    var ph := s.procs[p];
    && (ph.Writing? ==>
          && ph.n <= |ph.out| && p in s.temps && s.temps[p] == ph.out[..ph.n]
          && SomeWhole(w, orig, ph.out))
    && (ph.Renaming? ==>
          && p in s.temps && s.temps[p] == ph.out && SomeWhole(w, orig, ph.out)
          && ph.attempt < RENAME_ATTEMPTS && ph.slept == 75 * ph.attempt * (ph.attempt + 1))
    && ((ph.Unlocking? || ph.Finished?) ==> (ph.ret == Ok(true) <==> p in s.writers))
    && (!ph.Unlocking? && !ph.Finished? && !ph.Crashed? ==> p !in s.writers)
  }

  ghost predicate Honest(w: Wording, orig: string, s: State) {
    && SomeWhole(w, orig, s.file)
    && (forall p :: p in s.procs ==> ProcSound(w, orig, s, p))
    && (forall i :: 0 <= i < |s.writers| ==> s.writers[i] in s.procs)
  }

  /** A step of one process leaves the others and what they own alone. */
  lemma OthersKeep(w: Wording, s: State, step: Step, p: nat)
    requires Enabled(s, step) && p in s.procs && (step.Tick? || p != step.p)
    ensures var s' := Do(w, s, step);
            && p in s'.procs && s'.procs[p] == s.procs[p]
            && (p in s'.temps <==> p in s.temps) && (p in s.temps ==> s'.temps[p] == s.temps[p])
            && (p in s'.writers <==> p in s.writers)
  {}

  lemma MoverSound(w: Wording, orig: string, s: State, step: Step)
    requires Honest(w, orig, s) && Enabled(s, step) && !step.Tick?
    ensures step.p in Do(w, s, step).procs && ProcSound(w, orig, Do(w, s, step), step.p)
  {
    match step
    case Reread(p) => RereadSound(w, orig, s, p);
    case RenameFails(p) => RenameFailsSound(w, orig, s, p);
    case RenameOk(p) => RenameOkSound(w, orig, s, p);
    case WriteTo(p, n) => WriteSound(w, orig, s, p, n);
    case Close(p) => CloseSound(w, orig, s, p);
    case Read(_) => LeaveSound(w, orig, s, step);
    case IoFails(_) => LeaveSound(w, orig, s, step);
    case _ => LockMoverSound(w, orig, s, step);
  }

  lemma RereadSound(w: Wording, orig: string, s: State, p: nat)
    requires Honest(w, orig, s) && Enabled(s, Reread(p))
    ensures ProcSound(w, orig, Do(w, s, Reread(p)), p)
  {
    assert ProcSound(w, orig, s, p);
    WholeMigrates(w, orig, s.file);
  }

  lemma RenameFailsSound(w: Wording, orig: string, s: State, p: nat)
    requires Honest(w, orig, s) && Enabled(s, RenameFails(p))
    ensures ProcSound(w, orig, Do(w, s, RenameFails(p)), p)
  {
    var ph, u := s.procs[p], Do(w, s, RenameFails(p));
    assert ProcSound(w, orig, s, p);
    if ph.attempt + 1 >= RENAME_ATTEMPTS {
      PlainSound(w, orig, u, p);
    } else {
      NextAttempt(ph.attempt);
      RetrySound(w, orig, s, u, p);
    }
  }

  lemma NextAttempt(a: nat)
    ensures 75 * a * (a + 1) + BACKOFF_MS * (a + 1) == 75 * (a + 1) * (a + 2)
  {}

  /** Trying again keeps the text and its temporary file. */
  lemma RetrySound(w: Wording, orig: string, s: State, u: State, p: nat)
    requires p in s.procs && p in u.procs && ProcSound(w, orig, s, p)
    requires s.procs[p].Renaming? && u.procs[p].Renaming? && u.procs[p].out == s.procs[p].out
    requires u.temps == s.temps && u.writers == s.writers
    requires u.procs[p].attempt < RENAME_ATTEMPTS
    requires u.procs[p].slept == 75 * u.procs[p].attempt * (u.procs[p].attempt + 1)
    ensures ProcSound(w, orig, u, p)
  {}

  lemma RenameOkSound(w: Wording, orig: string, s: State, p: nat)
    requires Honest(w, orig, s) && Enabled(s, RenameOk(p))
    ensures ProcSound(w, orig, Do(w, s, RenameOk(p)), p)
  {}

  /** The steps around the lock. */
  lemma LockMoverSound(w: Wording, orig: string, s: State, step: Step)
    requires Honest(w, orig, s) && Enabled(s, step)
    requires step.Start? || step.Open? || step.OpenFails? || step.Stat? || step.Steal? || step.Unlock? || step.Crash?
    ensures step.p in Do(w, s, step).procs && ProcSound(w, orig, Do(w, s, step), step.p)
  {}

  lemma WriteSound(w: Wording, orig: string, s: State, p: nat, n: nat)
    requires Honest(w, orig, s) && Enabled(s, WriteTo(p, n))
    ensures ProcSound(w, orig, Do(w, s, WriteTo(p, n)), p)
  {}

  lemma CloseSound(w: Wording, orig: string, s: State, p: nat)
    requires Honest(w, orig, s) && Enabled(s, Close(p))
    ensures ProcSound(w, orig, Do(w, s, Close(p)), p)
  {}

  /** A process without a text of its own has nothing to account for but its result. */
  lemma PlainSound(w: Wording, orig: string, s: State, p: nat)
    requires p in s.procs && !s.procs[p].Writing? && !s.procs[p].Renaming? && p !in s.writers
    requires s.procs[p].Unlocking? || s.procs[p].Finished? ==> s.procs[p].ret != Ok(true)
    ensures ProcSound(w, orig, s, p)
  {}

  lemma LeaveSound(w: Wording, orig: string, s: State, step: Step)
    requires Honest(w, orig, s) && Enabled(s, step) && (step.Read? || step.IoFails?)
    ensures ProcSound(w, orig, Do(w, s, step), step.p)
  {
    NotYetWriter(w, orig, s, step.p);
    var u := Do(w, s, step);
    match step
    case Read(p) =>
      AfterReading(Detect(w, s.file));
      assert u.procs[p] == AfterRead(Detect(w, s.file));
      PlainSound(w, orig, u, p);
    case IoFails(p) =>
      assert u.procs[p] == Unlocking(Err(Io));
      PlainSound(w, orig, u, p);
  }

  lemma NotYetWriter(w: Wording, orig: string, s: State, p: nat)
    requires Honest(w, orig, s) && p in s.procs
    ensures !s.procs[p].Unlocking? && !s.procs[p].Finished? && !s.procs[p].Crashed? ==> p !in s.writers
  {
    assert ProcSound(w, orig, s, p);
  }

  lemma AfterReading(v: int)
    ensures !AfterRead(v).Writing? && !AfterRead(v).Renaming? && !AfterRead(v).Finished?
    ensures AfterRead(v).Unlocking? ==> AfterRead(v).ret != Ok(true)
  {}

  lemma HonestStep(w: Wording, orig: string, s: State, step: Step)
    requires Honest(w, orig, s) && Enabled(s, step)
    ensures Honest(w, orig, Do(w, s, step))
  {
    forall p | p in Do(w, s, step).procs ensures ProcSound(w, orig, Do(w, s, step), p) {
      HonestProc(w, orig, s, step, p);
    }
    HonestFile(w, orig, s, step);
  }

  lemma HonestProc(w: Wording, orig: string, s: State, step: Step, p: nat)
    requires Honest(w, orig, s) && Enabled(s, step) && p in Do(w, s, step).procs
    ensures ProcSound(w, orig, Do(w, s, step), p)
  {
    if !step.Tick? && p == step.p {
      MoverSound(w, orig, s, step);
    } else {
      OthersKeep(w, s, step, p);
      UntouchedSound(w, orig, s, Do(w, s, step), p);
    }
  }

  lemma UntouchedSound(w: Wording, orig: string, s: State, s': State, p: nat)
    requires Honest(w, orig, s) && p in s.procs && p in s'.procs && s'.procs[p] == s.procs[p]
    requires (p in s'.temps <==> p in s.temps) && (p in s.temps ==> s'.temps[p] == s.temps[p])
    requires p in s'.writers <==> p in s.writers
    ensures ProcSound(w, orig, s', p)
  {}

  lemma HonestFile(w: Wording, orig: string, s: State, step: Step)
    requires Honest(w, orig, s) && Enabled(s, step)
    ensures var s' := Do(w, s, step);
            && SomeWhole(w, orig, s'.file)
            && (forall i :: 0 <= i < |s'.writers| ==> s'.writers[i] in s'.procs)
  {}

  lemma {:induction false} HonestRun(w: Wording, orig: string, s: State, steps: seq<Step>)
    requires Honest(w, orig, s) && Legal(w, s, steps)
    ensures Honest(w, orig, Exec(w, s, steps))
    decreases |steps|
  {
    if steps != [] {
      HonestStep(w, orig, s, steps[0]);
      HonestRun(w, orig, Do(w, s, steps[0]), steps[1..]);
    }
  }
}
