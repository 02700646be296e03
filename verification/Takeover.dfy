/** Taking the system DNS over and giving it back: the commands one at a time on the two files, and
    the steps of all of them interleaved, with crashes. Setting resolv.conf and saving the state is one
    step. Texts are bytes, and the record holds them as JSON gives them back. */
module Takeover {
  import opened Prelude
  import opened Utf8
  import opened ResolvConf

  /** The state file: not there, not to be read as a state of this system, or holding the previous
      resolv.conf. */
  datatype Record = Missing | Unreadable | Holding(prev: string)

  datatype Files = Files(resolv: string, saved: Record)

  function SetAndSave(h: Header, f: Files): Files {
    Files(Rewritten(h, f.resolv), Holding(Recode(f.resolv)))
  }

  // ---- the commands, one at a time ----

  datatype Result = Done | AlreadyTakenOver | NothingToRestore | BadState | EmptyState

  class Host {
    var files: Files
    const header: Header

    constructor (h: Header, resolv: string)
      ensures files == Files(resolv, Missing) && header == h
    {
      header, files := h, Files(resolv, Missing);
    }

    /** RestoreSystemDNS refuses a state without content. */
    method RestoreDns(prev: string) returns (ok: bool)
      modifies this
      ensures ok <==> prev != ""
      ensures files == if ok then old(files).(resolv := prev) else old(files)
    {
      if prev == "" { return false; }
      files := files.(resolv := prev);
      return true;
    }

    /** A state file that cannot be read stops setup even with --force. */
    method Setup(force: bool) returns (r: Result)
      modifies this
      ensures r == if old(files).saved.Unreadable? then BadState
                   else if old(files).saved.Holding? && !force then AlreadyTakenOver
                   else Done
      ensures files == if r == Done then Files(Rewritten(header, old(files).resolv), Holding(Recode(old(files).resolv)))
                       else old(files)
    {
      if files.saved.Unreadable? { return BadState; }
      var active := files.saved.Holding?;
      if active && !force { return AlreadyTakenOver; }
      var content := TakeOver(header, files.resolv);
      files := Files(content, Holding(Recode(files.resolv)));
      return Done;
    }

    method Restore() returns (r: Result)
      modifies this
      ensures r == match old(files).saved
                   case Missing => NothingToRestore
                   case Unreadable => BadState
                   case Holding(prev) => if prev == "" then EmptyState else Done
      ensures files == if r == Done then Files(old(files).saved.prev, Missing) else old(files)
    {
      if files.saved.Missing? { return NothingToRestore; }
      if files.saved.Unreadable? { return BadState; }
      var ok := RestoreDns(files.saved.prev);
      if !ok { return EmptyState; }
      files := files.(saved := Missing);
      return Done;
    }

    /** `run` from its start to its exit, with nobody else at work: unless it keeps the takeover, a
        resolv.conf that is not empty comes back, and unchanged exactly if it is well-formed text. */
    method Run(keep: bool) returns (r: Result)
      modifies this
      ensures r == if !keep && old(files).resolv == "" then EmptyState else Done
      ensures files == if keep || r == EmptyState
                       then Files(Rewritten(header, old(files).resolv), Holding(Recode(old(files).resolv)))
                       else Files(Recode(old(files).resolv), Missing)
      ensures !keep && r == Done ==> (files.resolv == old(files).resolv <==> Valid(old(files).resolv))
    {
      RecodeEmpty(files.resolv);
      RecodeIff(files.resolv);
      var st := Recode(files.resolv);
      var content := TakeOver(header, files.resolv);
      files := Files(content, Holding(st));
      if keep { return Done; }
      var ok := RestoreDns(st);
      if !ok { return EmptyState; }
      files := files.(saved := Missing);
      return Done;
    }
  }

  // ---- the commands interleaved ----

  /** Where a process is: `setup` past its check, `run` serving with the state it holds, `restore`
      with the state it has read, or any of them between restoring and clearing the saved state. */
  datatype Phase = Checked | Serving(st: string) | Loaded(st: string) | Clearing | Finished(r: Result)

  datatype State = State(files: Files, procs: map<nat, Phase>)

  datatype Step =
    | SetupCheck(p: nat)
    | SetupSet(p: nat)
    | RunSet(p: nat)
    | RunKeep(p: nat)
    | RunRestore(p: nat)
    | RestoreLoad(p: nat)
    | RestoreWrite(p: nat)
    | Clear(p: nat)
    | Crash(p: nat)

  function Init(orig: string): State {
    State(Files(orig, Missing), map[])
  }

  predicate Enabled(s: State, step: Step) {
    match step
    case SetupCheck(p) => p !in s.procs
    case SetupSet(p) => p in s.procs && s.procs[p].Checked?
    case RunSet(p) => p !in s.procs
    case RunKeep(p) => p in s.procs && s.procs[p].Serving?
    case RunRestore(p) => p in s.procs && s.procs[p].Serving?
    case RestoreLoad(p) => p !in s.procs
    case RestoreWrite(p) => p in s.procs && s.procs[p].Loaded?
    case Clear(p) => p in s.procs && s.procs[p].Clearing?
    case Crash(p) => p in s.procs
  }

  function Move(s: State, p: nat, ph: Phase, files: Files): State {
    State(files, s.procs[p := ph])
  }

  /** RestoreSystemDNS, with the process going on to clear the state if it worked. */
  function WriteBack(s: State, p: nat, st: string): State {
    if st == "" then Move(s, p, Finished(EmptyState), s.files)
    else Move(s, p, Clearing, s.files.(resolv := st))
  }

  function AfterCheck(saved: Record): Phase {
    match saved
    case Missing => Checked
    case Unreadable => Finished(BadState)
    case Holding(_) => Finished(AlreadyTakenOver)
  }

  function AfterLoad(saved: Record): Phase {
    match saved
    case Missing => Finished(NothingToRestore)
    case Unreadable => Finished(BadState)
    case Holding(prev) => Loaded(prev)
  }

  function Do(h: Header, s: State, step: Step): State
    requires Enabled(s, step)
  {
    match step
    case SetupCheck(p) => Move(s, p, AfterCheck(s.files.saved), s.files)
    case SetupSet(p) => Move(s, p, Finished(Done), SetAndSave(h, s.files))
    case RunSet(p) => Move(s, p, Serving(Recode(s.files.resolv)), SetAndSave(h, s.files))
    case RunKeep(p) => Move(s, p, Finished(Done), s.files)
    case RunRestore(p) => WriteBack(s, p, s.procs[p].st)
    case RestoreLoad(p) => Move(s, p, AfterLoad(s.files.saved), s.files)
    case RestoreWrite(p) => WriteBack(s, p, s.procs[p].st)
    case Clear(p) => Move(s, p, Finished(Done), s.files.(saved := Missing))
    case Crash(p) => State(s.files, s.procs - {p})
  }

  predicate Legal(h: Header, s: State, steps: seq<Step>)
    decreases |steps|
  {
    steps == [] || (Enabled(s, steps[0]) && Legal(h, Do(h, s, steps[0]), steps[1..]))
  }

  function Exec(h: Header, s: State, steps: seq<Step>): State
    requires Legal(h, s, steps)
    decreases |steps|
  {
    if steps == [] then s else Exec(h, Do(h, s, steps[0]), steps[1..])
  }

  predicate TakesOver(step: Step) {
    step.SetupSet? || step.RunSet?
  }

  /** Only running, restoring, clearing and crashing: nobody takes over. */
  predicate NoTakeover(steps: seq<Step>) {
    steps == [] || (!TakesOver(steps[0]) && NoTakeover(steps[1..]))
  }

  lemma RunOn(h: Header, s: State, step: Step, rest: seq<Step>)
    requires Enabled(s, step) && Legal(h, Do(h, s, step), rest)
    ensures Legal(h, s, [step] + rest) && Exec(h, s, [step] + rest) == Exec(h, Do(h, s, step), rest)
    ensures NoTakeover([step] + rest) <==> !TakesOver(step) && NoTakeover(rest)
  {
    assert ([step] + rest)[1..] == rest;
  }

  lemma {:induction false} RunBoth(h: Header, s: State, a: seq<Step>, b: seq<Step>)
    requires Legal(h, s, a) && Legal(h, Exec(h, s, a), b)
    ensures Legal(h, s, a + b) && Exec(h, s, a + b) == Exec(h, Exec(h, s, a), b)
    decreases |a|
  {
    if a == [] {
      assert a + b == b;
    } else {
      RunBoth(h, Do(h, s, a[0]), a[1..], b);
      RunOn(h, s, a[0], a[1..] + b);
      assert a + b == [a[0]] + (a[1..] + b);
    }
  }

  predicate NobodyClears(s: State) {
    forall p :: p in s.procs ==> !s.procs[p].Clearing?
  }

  // ---- a command alone takes the steps of its method ----

  /** What is left to say of one process. */
  predicate Ends(s: State, p: nat, r: Result, files: Files) {
    p in s.procs && s.procs[p] == Finished(r) && s.files == files
  }

  /** `setup` without --force, undisturbed, ends as Host.Setup says. */
  lemma SetupAlone(h: Header, s: State, p: nat)
    requires p !in s.procs
    ensures var a := Do(h, s, SetupCheck(p));
            if s.files.saved.Unreadable? then Ends(a, p, BadState, s.files)
            else if s.files.saved.Holding? then Ends(a, p, AlreadyTakenOver, s.files)
            else
              && Enabled(a, SetupSet(p))
              && Ends(Do(h, a, SetupSet(p)), p, Done,
                      Files(Rewritten(h, s.files.resolv), Holding(Recode(s.files.resolv))))
  {}

  /** `restore`, undisturbed, ends as Host.Restore says. */
  lemma RestoreAlone(h: Header, s: State, p: nat)
    requires p !in s.procs
    ensures var a := Do(h, s, RestoreLoad(p));
            match s.files.saved
            case Missing => Ends(a, p, NothingToRestore, s.files)
            case Unreadable => Ends(a, p, BadState, s.files)
            case Holding(prev) =>
              && Enabled(a, RestoreWrite(p))
              && var b := Do(h, a, RestoreWrite(p));
                 if prev == "" then Ends(b, p, EmptyState, s.files)
                 else Enabled(b, Clear(p)) && Ends(Do(h, b, Clear(p)), p, Done, Files(prev, Missing))
  {}

  /** `run`, undisturbed, ends as Host.Run says, with and without --keep. */
  lemma RunAlone(h: Header, s: State, p: nat)
    requires p !in s.procs
    ensures var a := Do(h, s, RunSet(p));
            var taken := Files(Rewritten(h, s.files.resolv), Holding(Recode(s.files.resolv)));
            && Enabled(a, RunKeep(p)) && Ends(Do(h, a, RunKeep(p)), p, Done, taken)
            && Enabled(a, RunRestore(p))
            && var b := Do(h, a, RunRestore(p));
               if s.files.resolv == "" then Ends(b, p, EmptyState, taken)
               else
                 && Enabled(b, Clear(p))
                 && Ends(Do(h, b, Clear(p)), p, Done, Files(Recode(s.files.resolv), Missing))
  {
    RecodeEmpty(s.files.resolv);
  }
}
