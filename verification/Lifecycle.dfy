/**
 One run and its heartbeat thread, as interleaved atomic steps.

 The main thread creates the record, writes the lock, starts the heartbeat, and
 later ends in one of five ways. The heartbeat refreshes the lock while it holds
 a mutex; stopping it sets a flag under that mutex and waits for the thread. Any
 file operation of the main thread may fail, and the process may be killed
 between any two steps.
*/
module Lifecycle {
  import opened Wrappers

  /** Why a run is ending. */
  datatype Ending = FailedStart | Malformed | Finishing | Failing | Dropping

  /** Where the main thread is. */
  datatype Main =
    | Creating
    | Locked                        // the lock is written, the thread is not started
    | Spawned                       // the thread is started, the declaration is not read
    | Active
    | WantMutex(why: Ending)
    | HoldMutex(why: Ending)
    | Joining(why: Ending)
    | Removing(why: Ending)
    | Recording(why: Ending)
    | Ended(why: Ending)

  /** Where the heartbeat thread is; it holds the mutex at Check, Woken and Writing. */
  datatype Beat = Absent | Starting | Check | Waiting | Woken | Writing | Done

  datatype Owner = Free | ByMain | ByBeat

  datatype Verdict = Succeeded | Failed

  /**
   `refreshes` counts lock writes; `ignored` is set when a failed removal of the lock is passed over;
   `written` says whether the lock was ever there, and `unrecorded` whether the last attempt to record
   a status failed.
  */
  datatype State = State(
    main: Main, beat: Beat, mutex: Owner, stop: bool,
    lock: Option<nat>, status: Option<Verdict>,
    refreshes: nat, ignored: bool, killed: bool, written: bool, unrecorded: bool)

  const START := State(Creating, Absent, Free, false, None, None, 0, false, false, false, false)

  /** One step of one thread; `ok` says whether the operation it performs succeeds. */
  datatype Step =
    | OfMain(ok: bool, ending: Ending, verified: bool)
    | OfBeat(ok: bool)
    | Kill

  /** The endings that `finish`, `fail` and dropping the run choose from. */
  function Chosen(ok: bool, ending: Ending): Ending {
    if ok && (ending.Finishing? || ending.Failing?) then ending else Dropping
  }

  /** An ending that reports its errors, and is then dropped unfinished. */
  predicate Reports(why: Ending) {
    why.Finishing? || why.Failing?
  }

  function MainStep(s: State, ok: bool, ending: Ending, verified: bool): State {
    match s.main
    case Creating => if ok then s.(main := Locked, lock := Some(0), written := true)
        else s.(main := Removing(FailedStart))
    case Locked => if ok then s.(main := Spawned, beat := Starting) else s.(main := Removing(FailedStart))
    case Spawned => s.(main := if ok then Active else WantMutex(Malformed))
    case Active => s.(main := WantMutex(Chosen(ok, ending)))
    case WantMutex(why) => if s.mutex.Free? then s.(main := HoldMutex(why), mutex := ByMain) else s
    case HoldMutex(why) => s.(main := Joining(why), mutex := Free, stop := true)
    case Joining(why) => if s.beat.Done? then s.(main := if why.Malformed? then Ended(why) else Removing(why)) else s
    case Removing(why) =>
      if ok || s.lock.None? then s.(main := Recording(why), lock := None)
      else if Reports(why) then s.(main := Removing(Dropping))
      else s.(main := Recording(why), ignored := true)
    case Recording(why) =>
      if ok then
        s.(main := Ended(why), status := Some(if why.Finishing? && verified then Succeeded else Failed),
            unrecorded := false)
      else s.(main := if Reports(why) then Removing(Dropping) else Ended(why), unrecorded := true)
    case Ended(_) => s
  }

  function BeatStep(s: State, ok: bool): State {
    match s.beat
    case Absent => s
    case Starting => if s.mutex.Free? then s.(beat := Check, mutex := ByBeat) else s
    case Check => s.(beat := if s.stop then Done else Waiting, mutex := Free)
    case Waiting => if s.mutex.Free? then s.(beat := Woken, mutex := ByBeat) else s
    case Woken => if s.stop then s.(beat := Done, mutex := Free) else s.(beat := Writing)
    case Writing =>
      if ok then s.(beat := Check, lock := Some(s.refreshes + 1), refreshes := s.refreshes + 1) else s.(beat := Check)
    case Done => s
  }

  function Take(s: State, step: Step): State {
    if s.killed then s
    else match step
      case OfMain(ok, ending, verified) => MainStep(s, ok, ending, verified)
      case OfBeat(ok) => BeatStep(s, ok)
      case Kill => s.(killed := true)
  }

  function Run(s: State, steps: seq<Step>): State
    decreases |steps|
  {
    if steps == [] then s else Run(Take(s, steps[0]), steps[1..])
  }

  // The invariant

  predicate HoldsMutex(b: Beat) {
    b.Check? || b.Woken? || b.Writing?
  }

  predicate BeforeSpawn(m: Main) {
    m.Creating? || m.Locked? || ((m.Removing? || m.Recording? || m.Ended?) && m.why.FailedStart?)
  }

  /** The main thread has waited for the heartbeat, or never started one. */
  predicate PastJoin(m: Main) {
    m.Removing? || m.Recording? || m.Ended?
  }

  /** The mutex says who is inside, and the flag is set exactly from the moment the main thread left it. */
  predicate MutexIsRight(s: State) {
    && (s.mutex.ByBeat? <==> HoldsMutex(s.beat))
    && (s.mutex.ByMain? <==> s.main.HoldMutex?)
    && (BeforeSpawn(s.main) <==> s.beat.Absent?)
    && (s.stop <==> s.main.Joining? || (PastJoin(s.main) && !BeforeSpawn(s.main)))
    && (s.beat.Done? ==> s.stop)
    && (PastJoin(s.main) ==> s.beat.Done? || s.beat.Absent?)
    && (s.main.Removing? || s.main.Recording? ==> !s.main.why.Malformed?)
    && (s.main.WantMutex? || s.main.HoldMutex? || s.main.Joining? ==> !s.main.why.FailedStart?)
  }

  /** What is in the directory at each point of the main thread. */
  predicate DirectoryIsRight(s: State) {
    && (s.status.Some? ==> s.main.Ended? && !s.main.why.Malformed?)
    && (s.main.Creating? ==> s.lock.None?)
    && (!PastJoin(s.main) && !s.main.Creating? ==> s.lock.Some?)
    && (s.main.Removing? ==> !s.ignored)
    && (s.main.Recording? || (s.main.Ended? && !s.main.why.Malformed?) ==> (s.lock.Some? <==> s.ignored))
    && (s.main.Ended? && s.main.why.Malformed? ==> s.lock.Some? && !s.ignored)
    && (s.ignored ==> PastJoin(s.main) && !Reports(s.main.why))
  }

  /** How a run comes to have lost what would report it. */
  predicate LossIsRight(s: State) {
    && (!PastJoin(s.main) ==> !s.unrecorded && (s.written <==> !s.main.Creating?))
    && (!s.written ==> s.lock.None? && (s.main.Creating? || (PastJoin(s.main) && s.main.why.FailedStart?)))
    && (s.main.Removing? ==> (s.lock.None? <==> !s.written || s.unrecorded))
    && (s.main.Ended? && s.main.why.Malformed? ==> !s.unrecorded)
    && (s.main.Ended? && !s.main.why.Malformed? ==> (s.status.None? <==> s.unrecorded))
    && (s.main.Ended? && Reports(s.main.why) ==> s.status.Some?)
    && (s.main.Removing? && s.main.why.FailedStart? ==> !s.unrecorded)
    && (s.main.Removing? && Reports(s.main.why) ==> !s.unrecorded)
  }

  predicate Inv(s: State) {
    MutexIsRight(s) && DirectoryIsRight(s) && LossIsRight(s)
  }

  lemma StepKeepsMutex(s: State, step: Step)
    requires Inv(s)
    ensures MutexIsRight(Take(s, step))
  {
  }

  lemma StepKeepsDirectory(s: State, step: Step)
    requires Inv(s)
    ensures DirectoryIsRight(Take(s, step))
  {
  }

  lemma StepKeepsLoss(s: State, step: Step)
    requires Inv(s)
    ensures LossIsRight(Take(s, step))
  {
  }

  /** Every step of either thread, whether or not its operation succeeds. */
  lemma StepKeepsInv(s: State, step: Step)
    requires Inv(s)
    ensures Inv(Take(s, step))
  {
    StepKeepsMutex(s, step);
    StepKeepsDirectory(s, step);
    StepKeepsLoss(s, step);
  }

  lemma {:induction false} RunKeepsInv(s: State, steps: seq<Step>)
    requires Inv(s)
    ensures Inv(Run(s, steps))
    decreases |steps|
  {
    if steps != [] {
      StepKeepsInv(s, steps[0]);
      RunKeepsInv(Take(s, steps[0]), steps[1..]);
    }
  }

  // What it gives

  /** In every interleaving: beside a status there is a lock exactly when a failed removal of it was passed over. */
  lemma StatusExcludesLock(steps: seq<Step>)
    ensures var s := Run(START, steps); s.status.Some? ==> (s.lock.Some? <==> s.ignored)
  {
    RunKeepsInv(START, steps);
  }

  /** A run refused for a malformed declaration leaves its lock, no status, and no thread to refresh the lock. */
  lemma MalformedLeavesTheLock(steps: seq<Step>)
    ensures var s := Run(START, steps); s.main == Ended(Malformed) ==> s.lock.Some? && s.status.None? && s.beat.Done?
  {
    RunKeepsInv(START, steps);
  }

  /** Once the main thread has joined the heartbeat, no step writes the lock again. */
  lemma {:induction false} NoLockWriteAfterJoin(s: State, steps: seq<Step>)
    requires Inv(s) && PastJoin(s.main)
    ensures var t := Run(s, steps); PastJoin(t.main) && t.refreshes == s.refreshes && (t.lock == s.lock || t.lock.None?)
    decreases |steps|
  {
    if steps != [] {
      StepKeepsInv(s, steps[0]);
      NoLockWriteAfterJoin(Take(s, steps[0]), steps[1..]);
    }
  }

  /** How many steps the heartbeat may still take once it has been told to stop. */
  function StepsToDone(b: Beat): nat {
    match b
    case Writing => 3
    case Starting => 2
    case Waiting => 2
    case Check => 1
    case Woken => 1
    case _ => 0
  }

  /**
   A main thread waiting to join is never blocked for good: every step the heartbeat takes brings
   it closer to done.
  */
  lemma JoinGetsCloser(s: State, ok: bool)
    requires Inv(s) && s.main.Joining? && !s.beat.Done?
    ensures StepsToDone(BeatStep(s, ok).beat) < StepsToDone(s.beat) && BeatStep(s, ok).main == s.main
  {
  }

  function OfBeats(oks: seq<bool>): seq<Step> {
    if oks == [] then [] else [OfBeat(oks[0])] + OfBeats(oks[1..])
  }

  /** Given that many steps, the heartbeat is done, whatever its writes do. */
  lemma {:induction false} JoinEnds(s: State, oks: seq<bool>)
    requires Inv(s) && s.main.Joining? && !s.killed && |oks| >= StepsToDone(s.beat)
    ensures Run(s, OfBeats(oks)).beat.Done? && Run(s, OfBeats(oks)).main == s.main
    decreases |oks|
  {
    if oks != [] {
      var step := OfBeat(oks[0]);
      if !s.beat.Done? { JoinGetsCloser(s, oks[0]); }
      StepKeepsInv(s, step);
      JoinEnds(Take(s, step), oks[1..]);
      assert OfBeats(oks)[0] == step && OfBeats(oks)[1..] == OfBeats(oks[1..]);
    }
  }

  /** A run that has lost its lock, and has no status. */
  predicate Unreported(s: State) {
    s.lock.None? && s.status.None?
  }

  /**
   Whatever fails and whenever it is killed, a run has neither lock nor status exactly when it has not
   created its lock; or has removed it and not recorded yet; or its last attempt to record failed; and
   no failed removal has left the lock behind.
  */
  lemma UnreportedIff(steps: seq<Step>)
    ensures var s := Run(START, steps);
            Unreported(s) <==>
              !s.ignored &&
              (s.main.Creating? || s.main.Recording? || (s.main.Removing? && (!s.written || s.unrecorded))
               || (s.main.Ended? && s.unrecorded))
  {
    RunKeepsInv(START, steps);
  }

  // What is recorded, and why

  lemma {:induction false} OneMore(s: State, steps: seq<Step>, step: Step)
    ensures Run(s, steps + [step]) == Take(Run(s, steps), step)
    decreases |steps|
  {
    if steps == [] {
      assert steps + [step] == [step] && [step][1..] == [];
      assert Run(Take(s, step), []) == Take(s, step);
    } else {
      assert (steps + [step])[0] == steps[0] && (steps + [step])[1..] == steps[1..] + [step];
      OneMore(Take(s, steps[0]), steps[1..], step);
    }
  }

  /** What a run that ends this way is recorded as. */
  function VerdictOf(why: Ending, verified: bool): Verdict {
    if why == Finishing && verified then Succeeded else Failed
  }

  /** This step recorded the status, for a run that was ending this way. */
  ghost predicate RecordedAt(steps: seq<Step>, k: nat, why: Ending, verdict: Verdict) {
    k < |steps| && steps[k].OfMain? && steps[k].ok &&
    Run(START, steps[..k]).main == Recording(why) && verdict == VerdictOf(why, steps[k].verified)
  }

  lemma StepRecords(s: State, step: Step)
    requires Inv(s) && Take(s, step).status.Some?
    ensures s.status.Some? ==> Take(s, step).status == s.status && Take(s, step).main == s.main
    ensures s.status.None? ==>
      && step.OfMain? && step.ok && s.main.Recording? && Take(s, step).main == Ended(s.main.why)
      && Take(s, step).status == Some(VerdictOf(s.main.why, step.verified))
  {
  }

  /** Whatever fails: a status was recorded once, by a run that was then over, as success only of a verified finish. */
  lemma {:induction false} StatusTellsTheEnding(steps: seq<Step>) returns (k: nat)
    requires Run(START, steps).status.Some?
    ensures var s := Run(START, steps);
            s.main.Ended? && RecordedAt(steps, k, s.main.why, s.status.value)
    decreases |steps|
  {
    var last := |steps| - 1;
    var before := steps[..last];
    assert steps == before + [steps[last]];
    OneMore(START, before, steps[last]);
    RunKeepsInv(START, before);
    var s := Run(START, before);
    StepRecords(s, steps[last]);
    if s.status.Some? {
      k := StatusTellsTheEnding(before);
      assert before[..k] == steps[..k];
    } else {
      k := last;
    }
  }

  /** How a run is ending, once it is. */
  function EndingOf(m: Main): Option<Ending> {
    match m
    case WantMutex(why) => Some(why)
    case HoldMutex(why) => Some(why)
    case Joining(why) => Some(why)
    case Removing(why) => Some(why)
    case Recording(why) => Some(why)
    case Ended(why) => Some(why)
    case _ => None
  }

  /** What a step at this place of the main thread makes of the run. */
  ghost predicate Chooses(main: Main, step: Step, why: Ending) {
    step.OfMain? &&
    match why
    case FailedStart => (main.Creating? || main.Locked?) && !step.ok
    case Malformed => main.Spawned? && !step.ok
    case Finishing => main.Active? && step.ok && step.ending == Finishing
    case Failing => main.Active? && step.ok && step.ending == Failing
    case Dropping => main.Active? || ((main.Removing? || main.Recording?) && Reports(main.why) && !step.ok)
  }

  /** The step that made a run end this way. */
  ghost predicate ChosenAt(steps: seq<Step>, k: nat, why: Ending) {
    k < |steps| && Chooses(Run(START, steps[..k]).main, steps[k], why)
  }

  lemma BeatLeavesMain(s: State, ok: bool)
    ensures BeatStep(s, ok).main == s.main
  {
  }

  /** Up to the join the ending stays; a failure after it makes a reporting run a dropped one. */
  lemma EndingStays(s: State, ok: bool, ending: Ending, verified: bool)
    requires EndingOf(s.main).Some?
    ensures var t := MainStep(s, ok, ending, verified).main;
            || EndingOf(t) == EndingOf(s.main)
            || (EndingOf(t) == Some(Dropping) && (s.main.Removing? || s.main.Recording?) && Reports(s.main.why) && !ok)
  {
  }

  lemma EndingBegins(s: State, ok: bool, ending: Ending, verified: bool, why: Ending)
    requires EndingOf(s.main).None? && EndingOf(MainStep(s, ok, ending, verified).main) == Some(why)
    ensures Chooses(s.main, OfMain(ok, ending, verified), why)
  {
  }

  lemma StepChooses(s: State, step: Step, why: Ending)
    requires EndingOf(Take(s, step).main) == Some(why) && EndingOf(s.main) != Some(why)
    ensures Chooses(s.main, step, why)
  {
    match step
    case OfMain(ok, ending, verified) =>
      if EndingOf(s.main).Some? {
        EndingStays(s, ok, ending, verified);
      } else {
        EndingBegins(s, ok, ending, verified, why);
      }
    case OfBeat(ok) => BeatLeavesMain(s, ok);
    case Kill =>
  }

  /**
   A run ends as it was told to, unless it is dropped, or a failure drops it; and a failed start and a
   malformed declaration are what they are called.
  */
  lemma {:induction false} EndingWasChosen(steps: seq<Step>, why: Ending) returns (k: nat)
    requires EndingOf(Run(START, steps).main) == Some(why)
    ensures ChosenAt(steps, k, why)
    decreases |steps|
  {
    var last := |steps| - 1;
    var before := steps[..last];
    assert steps == before + [steps[last]];
    OneMore(START, before, steps[last]);
    if EndingOf(Run(START, before).main) == Some(why) {
      k := EndingWasChosen(before, why);
      assert before[..k] == steps[..k];
    } else {
      StepChooses(Run(START, before), steps[last], why);
      k := last;
    }
  }

  // When every file operation succeeds

  predicate Succeeds(step: Step) {
    match step
    case OfMain(ok, _, _) => ok
    case OfBeat(ok) => ok
    case Kill => true
  }

  predicate AllSucceed(steps: seq<Step>) {
    steps == [] || (Succeeds(steps[0]) && AllSucceed(steps[1..]))
  }

  predicate Smooth(s: State) {
    && (s.main.Removing? ==> s.lock.Some?)
    && (s.main.Ended? ==> s.status.Some?)
    && !s.ignored
    && (s.main.WantMutex? || s.main.HoldMutex? || s.main.Joining? || PastJoin(s.main) ==>
          !s.main.why.Malformed? && !s.main.why.FailedStart?)
  }

  lemma {:induction false} SuccessIsSmooth(s: State, steps: seq<Step>)
    requires Inv(s) && Smooth(s) && AllSucceed(steps)
    ensures Smooth(Run(s, steps))
    decreases |steps|
  {
    if steps != [] {
      StepKeepsInv(s, steps[0]);
      SuccessIsSmooth(Take(s, steps[0]), steps[1..]);
    }
  }

  /**
   A run that only a kill can disturb leaves either a lock, which the collector
   reaps, or a status; except when it is killed before it writes the lock, or
   between removing the lock and recording the status. Then nothing ever
   reports it.
  */
  lemma UnreportedExactly(steps: seq<Step>)
    requires AllSucceed(steps)
    ensures var s := Run(START, steps);
            Unreported(s) <==> s.main.Creating? || s.main.Recording?
  {
    RunKeepsInv(START, steps);
    SuccessIsSmooth(START, steps);
  }

  // Two runs that show the exceptions are real

  /** A step of the main thread that succeeds. */
  function Go(s: State, ending: Ending): State {
    MainStep(s, true, ending, true)
  }

  lemma GoOn(steps: seq<Step>, s: State, ending: Ending) returns (longer: seq<Step>)
    requires Run(START, steps) == s && !s.killed
    ensures Run(START, longer) == Go(s, ending) && !Go(s, ending).killed && (AllSucceed(steps) ==> AllSucceed(longer))
  {
    longer := steps + [OfMain(true, ending, true)];
    OneMore(START, steps, OfMain(true, ending, true));
    if AllSucceed(steps) { OneMoreSucceeds(steps, OfMain(true, ending, true)); }
  }

  /** Three of them. */
  lemma ThreeMore(steps: seq<Step>, s: State, ending: Ending) returns (longer: seq<Step>)
    requires Run(START, steps) == s && !s.killed
    ensures Run(START, longer) == Go(Go(Go(s, ending), ending), ending)
    ensures AllSucceed(steps) ==> AllSucceed(longer)
  {
    longer := GoOn(steps, s, ending);
    longer := GoOn(longer, Go(s, ending), ending);
    longer := GoOn(longer, Go(Go(s, ending), ending), ending);
  }

  function AtRemoval(ending: Ending): State {
    State(Removing(ending), Done, Free, true, Some(0), None, 0, false, false, true, false)
  }

  /** An undisturbed run, up to the removal of its lock. */
  lemma ReachesRemoval(ending: Ending) returns (steps: seq<Step>)
    requires ending.Finishing? || ending.Failing? || ending.Dropping?
    ensures Run(START, steps) == AtRemoval(ending) && AllSucceed(steps)
  {
    var active := State(Active, Starting, Free, false, Some(0), None, 0, false, false, true, false);
    var joining := active.(main := Joining(ending), stop := true);
    steps := ThreeMore([], START, ending);
    assert Run(START, steps) == active;
    steps := ThreeMore(steps, active, ending);
    assert Run(START, steps) == joining;
    steps := BeatEnds(steps, joining);
    steps := GoOn(steps, joining.(beat := Done), ending);
  }

  lemma BeatEnds(steps: seq<Step>, s: State) returns (longer: seq<Step>)
    requires Run(START, steps) == s && !s.killed && s.beat.Starting? && s.mutex.Free? && s.stop && AllSucceed(steps)
    ensures Run(START, longer) == s.(beat := Done) && AllSucceed(longer)
  {
    var tick := OfBeat(true);
    OneMore(START, steps, tick);
    OneMoreSucceeds(steps, tick);
    OneMore(START, steps + [tick], tick);
    OneMoreSucceeds(steps + [tick], tick);
    longer := steps + [tick] + [tick];
  }

  /** An undisturbed run ends without a lock, and is recorded as what it ended as. */
  lemma UndisturbedRunIsRecorded(ending: Ending, verified: bool) returns (steps: seq<Step>)
    requires ending.Finishing? || ending.Failing? || ending.Dropping?
    ensures AllSucceed(steps)
    ensures var s := Run(START, steps);
            s.main == Ended(ending) && s.lock.None? && s.status == Some(VerdictOf(ending, verified)) && s.beat.Done?
  {
    steps := ReachesRemoval(ending);
    OneMore(START, steps, OfMain(true, ending, verified));
    OneMoreSucceeds(steps, OfMain(true, ending, verified));
    steps := steps + [OfMain(true, ending, verified)];
    OneMore(START, steps, OfMain(true, ending, verified));
    OneMoreSucceeds(steps, OfMain(true, ending, verified));
    steps := steps + [OfMain(true, ending, verified)];
  }

  lemma {:induction false} OneMoreSucceeds(steps: seq<Step>, step: Step)
    requires AllSucceed(steps) && Succeeds(step)
    ensures AllSucceed(steps + [step])
    decreases |steps|
  {
    if steps == [] {
      assert steps + [step] == [step] && [step][1..] == [];
    } else {
      assert (steps + [step])[0] == steps[0] && (steps + [step])[1..] == steps[1..] + [step];
      OneMoreSucceeds(steps[1..], step);
    }
  }

  /** A run whose start fails, before or after its lock is written, is recorded as failed without a lock. */
  lemma FailedStartIsRecorded(written: bool) returns (steps: seq<Step>)
    ensures var s := Run(START, steps);
            s.main == Ended(FailedStart) && s.lock.None? && s.status == Some(Failed) && s.written == written
  {
    var go, stop := OfMain(true, Dropping, true), OfMain(false, Dropping, true);
    assert Run(START, []) == START;
    steps := [];
    if written {
      OneMore(START, steps, go);
      steps := steps + [go];
    }
    OneMore(START, steps, stop);
    OneMore(START, steps + [stop], go);
    OneMore(START, steps + [stop] + [go], go);
    steps := steps + [stop] + [go] + [go];
  }

  /** A run that is over as it was told to end has its verdict, and neither a lock nor a heartbeat. */
  lemma EndedAsToldIsRecorded(steps: seq<Step>, why: Ending)
    requires Run(START, steps).main == Ended(why) && (why == Finishing || why == Failing)
    ensures var s := Run(START, steps); s.status.Some? && s.lock.None? && s.beat.Done?
  {
    RunKeepsInv(START, steps);
  }

  /**
   One failure, of the removal or of the recording, is made good: the run is dropped, and the drop
   removes the lock and records it as failed.
  */
  lemma OneFailureIsMadeGood(ending: Ending, removed: bool) returns (steps: seq<Step>)
    requires ending == Finishing || ending == Failing
    ensures var s := Run(START, steps); s.main == Ended(Dropping) && s.lock.None? && s.status == Some(Failed)
    ensures exists k :: 0 <= k < |steps| && steps[k] == OfMain(false, ending, true) &&
              Run(START, steps[..k]).main == (if removed then Recording(ending) else Removing(ending))
  {
    var go, stop := OfMain(true, ending, true), OfMain(false, ending, true);
    steps := ReachesRemoval(ending);
    if removed {
      OneMore(START, steps, go);
      steps := steps + [go];
    }
    var k := |steps|;
    OneMore(START, steps, stop);
    OneMore(START, steps + [stop], go);
    OneMore(START, steps + [stop] + [go], go);
    var before := steps;
    steps := steps + [stop] + [go] + [go];
    assert steps[..k] == before && steps[k] == stop;
  }

  /** A dropped run whose lock cannot be removed records its failure beside the lock. */
  lemma IgnoredRemovalLeavesBoth() returns (steps: seq<Step>)
    ensures var s := Run(START, steps); s.status.Some? && s.lock.Some?
  {
    steps := ReachesRemoval(Dropping);
    OneMore(START, steps, OfMain(false, Dropping, true));
    steps := steps + [OfMain(false, Dropping, true)];
    OneMore(START, steps, OfMain(true, Dropping, true));
    steps := steps + [OfMain(true, Dropping, true)];
  }

  /** A finishing run killed at the wrong moment leaves neither. */
  lemma KilledBetweenLeavesNeither() returns (steps: seq<Step>)
    ensures var s := Run(START, steps); s.killed && s.status.None? && s.lock.None?
  {
    steps := ReachesRemoval(Finishing);
    OneMore(START, steps, OfMain(true, Finishing, true));
    steps := steps + [OfMain(true, Finishing, true)];
    OneMore(START, steps, Kill);
    steps := steps + [Kill];
  }

  /** Nor does a finishing run whose status can be recorded neither the first time nor when it is dropped. */
  lemma FailedRecordingsLeaveNeither() returns (steps: seq<Step>)
    ensures var s := Run(START, steps); !s.killed && s.main.Ended? && Unreported(s)
  {
    steps := ReachesRemoval(Finishing);
    OneMore(START, steps, OfMain(true, Finishing, true));
    steps := steps + [OfMain(true, Finishing, true)];
    OneMore(START, steps, OfMain(false, Finishing, true));
    steps := steps + [OfMain(false, Finishing, true)];
    OneMore(START, steps, OfMain(true, Finishing, true));
    steps := steps + [OfMain(true, Finishing, true)];
    OneMore(START, steps, OfMain(false, Finishing, true));
    steps := steps + [OfMain(false, Finishing, true)];
  }
}
