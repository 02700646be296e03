/** When the original resolv.conf can be had back. */
module TakeoverRuns {
  import opened Prelude
  import opened Utf8
  import opened ResolvConf
  import opened SavedText
  import opened Takeover

  /** Two texts the record does not tell apart. */
  predicate Same(a: string, b: string) {
    Recode(a) == Recode(b)
  }

  // ---- losing the original ----

  /** The files still give the original back, up to recoding: it is in place, or the record holds it. */
  predicate GivesBack(f: Files, orig: string) {
    Same(f.resolv, orig) || f.saved == Holding(Recode(orig))
  }

  /** However the running commands go on and whoever restores: as long as nobody takes over, the files
      give the original back. */
  ghost predicate Recoverable(h: Header, s: State, orig: string) {
    forall steps :: Legal(h, s, steps) && NoTakeover(steps) ==> GivesBack(Exec(h, s, steps).files, orig)
  }

  // ---- the states that lose nothing ----

  predicate HoldsOriginal(ph: Phase, orig: string) {
    (ph.Serving? || ph.Loaded?) ==> ph.st == Recode(orig)
  }

  /** The original is in place or recorded, nobody holds another text, and while somebody is about to
      clear the record it is in place. */
  predicate Safe(s: State, orig: string) {
    && !s.files.saved.Unreadable?
    && (s.files.saved.Missing? ==> Same(s.files.resolv, orig))
    && (s.files.saved.Holding? ==> s.files.saved.prev == Recode(orig))
    && (forall p :: p in s.procs ==> HoldsOriginal(s.procs[p], orig))
    && (!NobodyClears(s) ==> Same(s.files.resolv, orig))
  }

  /** A takeover of the original while nobody is about to clear the record. */
  predicate Timely(s: State, step: Step, orig: string) {
    TakesOver(step) ==> Same(s.files.resolv, orig) && NobodyClears(s)
  }

  lemma OthersStay(h: Header, s: State, step: Step)
    requires Enabled(s, step)
    ensures forall p :: p in Do(h, s, step).procs && p != step.p ==>
              p in s.procs && Do(h, s, step).procs[p] == s.procs[p]
  {}

  lemma SafeStep(h: Header, s: State, step: Step, orig: string)
    requires Safe(s, orig) && Enabled(s, step) && Timely(s, step, orig)
    ensures Safe(Do(h, s, step), orig)
  {
    OthersStay(h, s, step);
    RecodeTwice(orig);
  }

  lemma {:induction false} SafeGivesBack(h: Header, s: State, steps: seq<Step>, orig: string)
    requires Safe(s, orig) && Legal(h, s, steps) && NoTakeover(steps)
    ensures GivesBack(Exec(h, s, steps).files, orig)
    decreases |steps|
  {
    if steps != [] {
      SafeStep(h, s, steps[0], orig);
      SafeGivesBack(h, Do(h, s, steps[0]), steps[1..], orig);
    }
  }

  /** What the record and the processes hold came through the record, and is not empty. */
  predicate Recorded(text: string) {
    text != "" && Recode(text) == text
  }

  predicate Texts(s: State) {
    && s.files.resolv != "" && !s.files.saved.Unreadable?
    && (s.files.saved.Holding? ==> Recorded(s.files.saved.prev))
    && (forall p :: p in s.procs && (s.procs[p].Serving? || s.procs[p].Loaded?) ==> Recorded(s.procs[p].st))
  }

  lemma TextsStep(h: Header, s: State, step: Step)
    requires Texts(s) && Enabled(s, step)
    ensures Texts(Do(h, s, step))
  {
    OthersStay(h, s, step);
    RecodeTwice(s.files.resolv);
    RecodeEmpty(s.files.resolv);
  }

  /** In every run from a non-empty original. */
  lemma {:induction false} TextsRun(h: Header, s: State, steps: seq<Step>)
    requires Texts(s) && Legal(h, s, steps)
    ensures Texts(Exec(h, s, steps))
    decreases |steps|
  {
    if steps != [] {
      TextsStep(h, s, steps[0]);
      TextsRun(h, Do(h, s, steps[0]), steps[1..]);
    }
  }

  lemma {:induction false} Above(ids: set<nat>) returns (p: nat)
    ensures forall id :: id in ids ==> id < p
  {
    p := 0;
    if ids != {} {
      var id :| id in ids;
      var q := Above(ids - {id});
      p := if q <= id then id + 1 else q;
      forall other | other in ids
        ensures other < p
      {
        if other != id { assert other in ids - {id}; }
      }
    }
  }

  function RestoreSteps(p: nat): seq<Step> {
    [RestoreLoad(p)] + ([RestoreWrite(p)] + ([Clear(p)] + []))
  }

  lemma RestoreRuns(h: Header, s: State, p: nat)
    requires p !in s.procs && s.files.saved.Holding? && s.files.saved.prev != ""
    ensures Legal(h, s, RestoreSteps(p)) && NoTakeover(RestoreSteps(p))
    ensures Exec(h, s, RestoreSteps(p)).files == Files(s.files.saved.prev, Missing)
    ensures Exec(h, s, RestoreSteps(p)).procs == s.procs[p := Finished(Done)]
  {
    var s1 := Do(h, s, RestoreLoad(p));
    var s2 := Do(h, s1, RestoreWrite(p));
    RunOn(h, s2, Clear(p), []);
    RunOn(h, s1, RestoreWrite(p), [Clear(p)] + []);
    RunOn(h, s, RestoreLoad(p), [RestoreWrite(p)] + ([Clear(p)] + []));
    assert s.procs[p := Loaded(s.files.saved.prev)][p := Clearing][p := Finished(Done)] == s.procs[p := Finished(Done)];
  }

  /** A process that holds another text writes it and clears the record. */
  lemma WritesOther(h: Header, s: State, p: nat) returns (steps: seq<Step>)
    requires p in s.procs && (s.procs[p].Serving? || s.procs[p].Loaded?) && s.procs[p].st != ""
    ensures Legal(h, s, steps) && NoTakeover(steps)
    ensures Exec(h, s, steps).files == Files(s.procs[p].st, Missing)
  {
    var first := if s.procs[p].Serving? then RunRestore(p) else RestoreWrite(p);
    var s1 := Do(h, s, first);
    RunOn(h, s1, Clear(p), []);
    RunOn(h, s, first, [Clear(p)] + []);
    steps := [first] + ([Clear(p)] + []);
  }

  /** Every other state loses the original in some run without a takeover. */
  lemma UnsafeLoses(h: Header, s: State, orig: string) returns (steps: seq<Step>)
    requires orig != "" && Texts(s) && !Safe(s, orig)
    ensures Legal(h, s, steps) && NoTakeover(steps) && !GivesBack(Exec(h, s, steps).files, orig)
  {
    RecodeTwice(orig);
    if s.files.saved.Missing? && !Same(s.files.resolv, orig) {
      steps := [];
    } else if s.files.saved.Holding? && s.files.saved.prev != Recode(orig) {
      var p := Above(s.procs.Keys);
      RestoreRuns(h, s, p);
      steps := RestoreSteps(p);
    } else if p :| p in s.procs && !HoldsOriginal(s.procs[p], orig) {
      steps := WritesOther(h, s, p);
    } else {
      var p :| p in s.procs && s.procs[p].Clearing?;
      RunOn(h, s, Clear(p), []);
      steps := [Clear(p)] + [];
    }
  }

  /** So the safe states are exactly the recoverable ones. */
  lemma SafeIsRecoverable(h: Header, s: State, orig: string)
    requires orig != "" && Texts(s)
    ensures Safe(s, orig) <==> Recoverable(h, s, orig)
  {
    if Safe(s, orig) {
      forall steps | Legal(h, s, steps) && NoTakeover(steps)
        ensures GivesBack(Exec(h, s, steps).files, orig)
      {
        SafeGivesBack(h, s, steps, orig);
      }
    } else {
      var steps := UnsafeLoses(h, s, orig);
    }
  }

  lemma TakeoverMoves(h: Header, s: State, step: Step)
    requires Enabled(s, step) && TakesOver(step)
    ensures var u := Do(h, s, step);
            && u.files == SetAndSave(h, s.files)
            && (u.procs[step.p].Serving? ==> u.procs[step.p].st == Recode(s.files.resolv)) && !u.procs[step.p].Loaded?
            && (NobodyClears(u) <==> NobodyClears(s))
  {
    var u := Do(h, s, step);
    OthersStay(h, s, step);
    if !NobodyClears(s) {
      var p :| p in s.procs && s.procs[p].Clearing?;
      assert u.procs[p].Clearing?;
    }
  }

  /** After a takeover the original can still be had back, however the commands go on without another
      takeover, if and only if it was the original that was taken over and nobody was about to clear
      the record. */
  lemma TakeoverSafeIff(h: Header, s: State, step: Step, orig: string)
    requires Proper(h) && orig != "" && Texts(s) && Recoverable(h, s, orig) && Enabled(s, step) && TakesOver(step)
    ensures Recoverable(h, Do(h, s, step), orig) <==> Same(s.files.resolv, orig) && NobodyClears(s)
  {
    SafeIsRecoverable(h, s, orig);
    TextsStep(h, s, step);
    SafeIsRecoverable(h, Do(h, s, step), orig);
    if Timely(s, step, orig) {
      SafeStep(h, s, step, orig);
    } else {
      RecordsDiffer(h, s.files.resolv);
      TakeoverMoves(h, s, step);
    }
  }

  // ---- over whole runs ----

  ghost predicate RecoverableAlong(h: Header, s: State, steps: seq<Step>, orig: string)
    requires Legal(h, s, steps)
    decreases |steps|
  {
    Recoverable(h, s, orig) && (steps == [] || RecoverableAlong(h, Do(h, s, steps[0]), steps[1..], orig))
  }

  predicate TimelyAlong(h: Header, s: State, steps: seq<Step>, orig: string)
    requires Legal(h, s, steps)
    decreases |steps|
  {
    steps == [] || (Timely(s, steps[0], orig) && TimelyAlong(h, Do(h, s, steps[0]), steps[1..], orig))
  }

  lemma {:induction false} RecoverableFrom(h: Header, s: State, steps: seq<Step>, orig: string)
    requires Proper(h) && orig != "" && Texts(s) && Safe(s, orig) && Legal(h, s, steps)
    ensures RecoverableAlong(h, s, steps, orig) <==> TimelyAlong(h, s, steps, orig)
    decreases |steps|
  {
    SafeIsRecoverable(h, s, orig);
    if steps != [] {
      var step := steps[0];
      TextsStep(h, s, step);
      if Timely(s, step, orig) {
        SafeStep(h, s, step, orig);
        RecoverableFrom(h, Do(h, s, step), steps[1..], orig);
      } else {
        TakeoverSafeIff(h, s, step, orig);
      }
    }
  }

  /** Over every run of the commands, in any overlap and with crashes: the original can be had back all
      along if and only if every takeover was of the original, with nobody about to clear the record. */
  lemma NeverLostIff(h: Header, orig: string, steps: seq<Step>)
    requires Proper(h) && orig != "" && Legal(h, Init(orig), steps)
    ensures RecoverableAlong(h, Init(orig), steps, orig) <==> TimelyAlong(h, Init(orig), steps, orig)
  {
    RecoverableFrom(h, Init(orig), steps, orig);
  }

  // ---- what setup's own check gives ----

  /** A process between its check and its takeover, or between reading the record and clearing it. */
  predicate Midway(ph: Phase) {
    ph.Checked? || ph.Loaded? || ph.Clearing?
  }

  /** Nobody steps while another process is midway; crashes may come at any time. */
  predicate Undisturbed(s: State, step: Step) {
    step.Crash? || forall p :: p in s.procs && p != step.p ==> !Midway(s.procs[p])
  }

  /** The commands take their short sections in turn, and `run`, which has no check of its own, is started
      only with no takeover recorded. */
  predicate Orderly(h: Header, s: State, steps: seq<Step>)
    ensures Orderly(h, s, steps) ==> Legal(h, s, steps)
    decreases |steps|
  {
    steps == [] || (
      && Enabled(s, steps[0]) && Undisturbed(s, steps[0]) && (steps[0].RunSet? ==> s.files.saved.Missing?)
      && Orderly(h, Do(h, s, steps[0]), steps[1..]))
  }

  /** What setup's check has established still holds, and only one process is midway. */
  predicate CheckHolds(s: State) {
    && (forall p :: p in s.procs && s.procs[p].Checked? ==> s.files.saved.Missing?)
    && (forall p, q :: p in s.procs && q in s.procs && Midway(s.procs[p]) && Midway(s.procs[q]) ==> p == q)
  }

  lemma CheckKept(h: Header, s: State, step: Step)
    requires CheckHolds(s) && Enabled(s, step) && Undisturbed(s, step)
    ensures CheckHolds(Do(h, s, step))
  {
    OthersStay(h, s, step);
  }

  /** When there is no record or one is about to be cleared, resolv.conf is the original itself or the
      original as the record gives it back. */
  predicate InPlace(s: State, orig: string) {
    s.files.saved.Missing? || !NobodyClears(s) ==> s.files.resolv == orig || s.files.resolv == Recode(orig)
  }

  lemma InPlaceStep(h: Header, s: State, step: Step, orig: string)
    requires Safe(s, orig) && InPlace(s, orig) && Enabled(s, step) && Timely(s, step, orig)
    ensures InPlace(Do(h, s, step), orig)
  {
    var u := Do(h, s, step);
    OthersStay(h, s, step);
    if TakesOver(step) { TakeoverMoves(h, s, step); }
    if p :| p in u.procs && u.procs[p].Clearing? && p != step.p {
      assert s.procs[p].Clearing?;
    }
  }

  /** An orderly takeover is guarded: setup's check has found no record, a step ago and still. */
  lemma OrderlyIsGuarded(s: State, step: Step)
    requires CheckHolds(s) && Enabled(s, step) && Undisturbed(s, step)
    requires step.RunSet? ==> s.files.saved.Missing?
    ensures Guarded(s, step)
  {
    if step.SetupSet? { assert Midway(s.procs[step.p]); }
  }

  lemma {:induction false} OrderlyRun(h: Header, s: State, steps: seq<Step>, orig: string)
    requires Safe(s, orig) && CheckHolds(s) && InPlace(s, orig) && Orderly(h, s, steps)
    ensures Safe(Exec(h, s, steps), orig) && InPlace(Exec(h, s, steps), orig)
    ensures AllGuarded(h, s, steps) && TimelyAlong(h, s, steps, orig)
    decreases |steps|
  {
    if steps != [] {
      OrderlyIsGuarded(s, steps[0]);
      SafeStep(h, s, steps[0], orig);
      InPlaceStep(h, s, steps[0], orig);
      CheckKept(h, s, steps[0]);
      OrderlyRun(h, Do(h, s, steps[0]), steps[1..], orig);
    }
  }

  /** After any orderly run with crashes: `restore` brings a non-empty original back and clears the record,
      or there is none because it is in place already; and it comes back byte for byte exactly if it is
      well-formed text. */
  lemma RestoreBringsBack(h: Header, orig: string, steps: seq<Step>, p: nat)
    requires orig != "" && Orderly(h, Init(orig), steps)
    requires p !in Exec(h, Init(orig), steps).procs
    ensures var s := Exec(h, Init(orig), steps);
            if s.files.saved.Missing? then s.files.resolv == orig || s.files.resolv == Recode(orig)
            else Legal(h, s, RestoreSteps(p)) && Exec(h, s, RestoreSteps(p)).files == Files(Recode(orig), Missing)
    ensures Recode(orig) == orig <==> Valid(orig)
  {
    OrderlyRun(h, Init(orig), steps, orig);
    RecodeEmpty(orig);
    RecodeIff(orig);
    var s := Exec(h, Init(orig), steps);
    if s.files.saved.Holding? { RestoreRuns(h, s, p); }
  }

  /** One `run` from start to exit leaves the recoded original, well-formed or not. */
  lemma RunAlone(h: Header, orig: string) returns (steps: seq<Step>)
    requires orig != ""
    ensures Orderly(h, Init(orig), steps)
    ensures Exec(h, Init(orig), steps).files == Files(Recode(orig), Missing)
  {
    RecodeEmpty(orig);
    var s1 := Do(h, Init(orig), RunSet(0));
    var s2 := Do(h, s1, RunRestore(0));
    OrderlyOn(h, s2, Clear(0), []);
    OrderlyOn(h, s1, RunRestore(0), [Clear(0)] + []);
    OrderlyOn(h, Init(orig), RunSet(0), [RunRestore(0)] + ([Clear(0)] + []));
    steps := [RunSet(0)] + ([RunRestore(0)] + ([Clear(0)] + []));
  }

  lemma OrderlyOn(h: Header, s: State, step: Step, rest: seq<Step>)
    requires Enabled(s, step) && Undisturbed(s, step) && (step.RunSet? ==> s.files.saved.Missing?)
    requires Orderly(h, Do(h, s, step), rest)
    ensures Orderly(h, s, [step] + rest)
    ensures Exec(h, s, [step] + rest) == Exec(h, Do(h, s, step), rest)
  {
    RunOn(h, s, step, rest);
    assert ([step] + rest)[1..] == rest;
  }

  /** A resolv.conf with a Latin-1 comment, taken over and restored, comes back changed. */
  lemma Latin1NotRestored(h: Header) returns (orig: string, steps: seq<Step>)
    ensures Orderly(h, Init(orig), steps)
    ensures Exec(h, Init(orig), steps).files.saved.Missing? && Exec(h, Init(orig), steps).files.resolv != orig
  {
    orig := "# caf" + [0xE9 as char, '\n'];
    Latin1Changes();
    steps := RunAlone(h, orig);
  }

  // ---- an empty original ----

  /** No record at that moment, and nobody about to clear one. */
  predicate Guarded(s: State, step: Step) {
    TakesOver(step) ==> s.files.saved.Missing? && NobodyClears(s)
  }

  predicate AllGuarded(h: Header, s: State, steps: seq<Step>)
    requires Legal(h, s, steps)
    decreases |steps|
  {
    steps == [] || (Guarded(s, steps[0]) && AllGuarded(h, Do(h, s, steps[0]), steps[1..]))
  }

  /** An empty original is never written back: from a takeover on, the files stay taken over. */
  lemma {:induction false} EmptyOriginalStays(h: Header, s: State, steps: seq<Step>)
    requires Safe(s, "") && s.files.saved.Holding? && NobodyClears(s)
    requires Legal(h, s, steps) && AllGuarded(h, s, steps)
    ensures Exec(h, s, steps).files == s.files
    decreases |steps|
  {
    if steps != [] {
      SafeStep(h, s, steps[0], "");
      OthersStay(h, s, steps[0]);
      EmptyOriginalStays(h, Do(h, s, steps[0]), steps[1..]);
    }
  }

  // ---- runs that lose it ----

  /** Everybody is done, and neither resolv.conf nor the record gives the original back. */
  predicate Lost(s: State, orig: string) {
    !GivesBack(s.files, orig) && forall p :: p in s.procs ==> s.procs[p].Finished?
  }

  /** `run` during a takeover, and a crash: the record now holds the rewritten file, and restoring
      gives that back, without a record. */
  lemma UnguardedRunLoses(h: Header, orig: string) returns (steps: seq<Step>)
    requires Proper(h)
    ensures Legal(h, Init(orig), steps)
    ensures Exec(h, Init(orig), steps).files == Files(Recode(Rewritten(h, orig)), Missing)
    ensures Lost(Exec(h, Init(orig), steps), orig)
  {
    RecordsDiffer(h, orig);
    RecodeTwice(Rewritten(h, orig));
    RecodeEmpty(Rewritten(h, orig));
    var s1 := Do(h, Init(orig), SetupCheck(0));
    var s2 := Do(h, s1, SetupSet(0));
    var s3 := Do(h, s2, RunSet(1));
    var s4 := Do(h, s3, Crash(1));
    steps := RestoreSteps(2);
    RestoreRuns(h, s4, 2);
    RunOn(h, s3, Crash(1), steps);
    steps := [Crash(1)] + steps;
    RunOn(h, s2, RunSet(1), steps);
    steps := [RunSet(1)] + steps;
    RunOn(h, s1, SetupSet(0), steps);
    steps := [SetupSet(0)] + steps;
    RunOn(h, Init(orig), SetupCheck(0), steps);
    steps := [SetupCheck(0)] + steps;
  }

  /** Clearing is a step of its own: a `run` that exits after somebody else's `restore` can clear the
      record of a `setup` that came in between and found none. */
  lemma LateClearLoses(h: Header, orig: string) returns (steps: seq<Step>)
    requires Proper(h) && orig != ""
    ensures Legal(h, Init(orig), steps)
    ensures Exec(h, Init(orig), steps).files == Files(Rewritten(h, Recode(orig)), Missing)
    ensures Lost(Exec(h, Init(orig), steps), orig)
  {
    RecordsDiffer(h, Recode(orig));
    RecodeTwice(orig);
    RecodeEmpty(orig);
    var s1 := Do(h, Init(orig), RunSet(0));
    RestoreRuns(h, s1, 1);
    var rest := ExitLate(h, Exec(h, s1, RestoreSteps(1)), Recode(orig));
    RunBoth(h, s1, RestoreSteps(1), rest);
    RunOn(h, Init(orig), RunSet(0), RestoreSteps(1) + rest);
    steps := [RunSet(0)] + (RestoreSteps(1) + rest);
  }

  /** The second half: `run` exits, and `setup` comes in between its restoring and its clearing. */
  lemma ExitLate(h: Header, s: State, text: string) returns (steps: seq<Step>)
    requires text != "" && s.files == Files(text, Missing)
    requires s.procs == map[0 := Serving(text), 1 := Finished(Done)]
    ensures Legal(h, s, steps) && Exec(h, s, steps).files == Files(Rewritten(h, text), Missing)
    ensures forall p :: p in Exec(h, s, steps).procs ==> Exec(h, s, steps).procs[p].Finished?
  {
    var s1 := Do(h, s, RunRestore(0));
    var s2 := Do(h, s1, SetupCheck(2));
    var s3 := Do(h, s2, SetupSet(2));
    steps := [];
    RunOn(h, s3, Clear(0), steps);
    steps := [Clear(0)] + steps;
    RunOn(h, s2, SetupSet(2), steps);
    steps := [SetupSet(2)] + steps;
    RunOn(h, s1, SetupCheck(2), steps);
    steps := [SetupCheck(2)] + steps;
    RunOn(h, s, RunRestore(0), steps);
    steps := [RunRestore(0)] + steps;
  }

  /** Checking and setting are two steps as well: two `setup`s can both find nothing recorded, and the
      second one records what the first one wrote. */
  lemma SetupRaceLoses(h: Header, orig: string) returns (steps: seq<Step>)
    requires Proper(h)
    ensures Legal(h, Init(orig), steps)
    ensures Exec(h, Init(orig), steps).files.saved == Holding(Recode(Rewritten(h, orig)))
    ensures Lost(Exec(h, Init(orig), steps), orig)
  {
    RecordsDiffer(h, orig);
    var s1 := Do(h, Init(orig), SetupCheck(0));
    var s2 := Do(h, s1, SetupCheck(1));
    var s3 := Do(h, s2, SetupSet(0));
    steps := [];
    RunOn(h, s3, SetupSet(1), steps);
    steps := [SetupSet(1)] + steps;
    RunOn(h, s2, SetupSet(0), steps);
    steps := [SetupSet(0)] + steps;
    RunOn(h, s1, SetupCheck(1), steps);
    steps := [SetupCheck(1)] + steps;
    RunOn(h, Init(orig), SetupCheck(0), steps);
    steps := [SetupCheck(0)] + steps;
  }
}
