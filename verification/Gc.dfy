/**
 `runvault gc` on one run directory, with a heartbeat that may refresh the lock
 between any two of its steps.

 The collector reads the lock twice before it acts and once after. What its
 outcome means is proved for every interleaving. The refreshes that leave a
 failed status beside a lock, and those that the removal swallows, are
 characterised exactly.
*/
module Gc {
  import opened Wrappers

  datatype LockRecord = LockRecord(host: string, pid: nat, createdAt: string, heartbeatAt: string)

  /** A status the run wrote itself, or the one the collector writes for a killed run. */
  datatype Status = OfRun(text: string) | Killed(record: LockRecord)

  datatype Outcome = Nothing | Running | Reaped | Contested

  datatype Place =
    | Begin | Leftover | RemoveLeftover
    | ReadLock | Judge | ReadAgain | Remove | WriteFailed | LastRead | Withdraw
    | Done(outcome: Outcome)

  /**
   The directory and the collector. `record` is the lock as first read; `entry`
   is the status found on entry; `refreshed` is the lock as the heartbeat alone
   would have it; `wrote` says whether the collector has changed the directory;
   `late` says whether the heartbeat wrote after the collector's last read;
   `swallowed` says whether it wrote, after the second read and before the
   removal, a last record other than the one that was judged.
  */
  datatype State = State(
    place: Place, dryRun: bool,
    lock: Option<LockRecord>, status: Option<Status>, record: Option<LockRecord>,
    entry: Option<Status>, refreshed: Option<LockRecord>, wrote: bool, late: bool, swallowed: bool)

  /** A step of the collector, with the judgement it makes if it makes one, or a refresh. */
  datatype Step = Collect(stale: bool) | Refresh(record: LockRecord)

  function Start(lock: Option<LockRecord>, status: Option<Status>, dryRun: bool): State {
    State(Begin, dryRun, lock, status, None, status, lock, false, false, false)
  }

  function CollectStep(s: State, stale: bool): State {
    match s.place
    case Begin => s.(place := if s.status.Some? then Leftover else ReadLock)
    case Leftover => s.(place := if s.lock.Some? && !s.dryRun then RemoveLeftover else Done(Nothing))
    case RemoveLeftover => s.(place := Done(Nothing), lock := None, wrote := true)
    case ReadLock => if s.lock.None? then s.(place := Done(Nothing)) else s.(place := Judge, record := s.lock)
    case Judge => s.(place := if !stale then Done(Running) else if s.dryRun then Done(Reaped) else ReadAgain)
    case ReadAgain => s.(place := if s.lock == s.record then Remove else Done(Running))
    case Remove => s.(place := WriteFailed, lock := None, wrote := true)
    case WriteFailed => if s.record.None? then s else s.(place := LastRead, status := Some(Killed(s.record.value)))
    case LastRead => s.(place := if s.lock.Some? then Withdraw else Done(Reaped))
    case Withdraw => s.(place := Done(Contested), status := None)
    case Done(_) => s
  }

  predicate AfterLastRead(p: Place) {
    p.Withdraw? || p.Done?
  }

  function Take(s: State, step: Step): State {
    match step
    case Collect(stale) => CollectStep(s, stale)
    case Refresh(record) =>
      s.(lock := Some(record), refreshed := Some(record),
         late := s.late || AfterLastRead(s.place),
         swallowed := if s.place.Remove? then Some(record) != s.record else s.swallowed)
  }

  function Run(s: State, steps: seq<Step>): State
    decreases |steps|
  {
    if steps == [] then s else Run(Take(s, steps[0]), steps[1..])
  }

  predicate IsKilled(s: State) {
    s.record.Some? && s.status == Some(Killed(s.record.value))
  }

  /** The status is the one found on entry, until the collector writes its own. */
  predicate StatusInv(s: State) {
    && (s.entry.Some? ==> s.status == s.entry)
    && (s.entry.Some? ==> s.place.Begin? || s.place.Leftover? || s.place.RemoveLeftover? || s.place == Done(Nothing))
    && (s.entry.None? ==> !s.place.Leftover? && !s.place.RemoveLeftover? && (s.place == Done(Nothing) ==> !s.wrote))
    && (!s.wrote ==> s.status == s.entry)
    && (s.place.WriteFailed? ==> s.status.None?)
    && (s.place.LastRead? || s.place.Withdraw? ==> IsKilled(s))
    && (s.place == Done(Contested) ==> s.status.None?)
    && (s.place == Done(Reaped) && !s.dryRun ==> IsKilled(s))
  }

  /** From the first read of the lock on, but for the verdicts that need no record. */
  predicate HasRead(p: Place) {
    p.Judge? || p.ReadAgain? || p.Remove? || p.WriteFailed? || p.LastRead? || p.Withdraw? || p == Done(Reaped)
  }

  predicate HasWritten(p: Place) {
    p.WriteFailed? || p.LastRead? || p.Withdraw?
  }

  predicate PlaceInv(s: State) {
    && (HasRead(s.place) ==> s.record.Some?)
    && (HasWritten(s.place) || s.place == Done(Contested) ==> s.wrote)
    && (s.wrote ==> HasWritten(s.place) || (s.place.Done? && s.place != Done(Running)))
    && (s.place == Done(Reaped) ==> s.wrote == !s.dryRun)
    && (s.dryRun ==> !s.wrote && !s.place.RemoveLeftover? && !s.place.ReadAgain? && !s.place.Remove?)
    && (s.late ==> AfterLastRead(s.place))
  }

  /** The lock is the one the heartbeat last wrote, unless the collector has removed it. */
  predicate LockInv(s: State) {
    && (!s.wrote || s.lock.Some? ==> s.lock == s.refreshed)
    && (s.place.Withdraw? || s.place == Done(Contested) ==> s.lock.Some?)
    && (s.place == Done(Reaped) && !s.dryRun ==> (s.lock.Some? <==> s.late))
    && (s.place == Done(Nothing) && s.entry.Some? && !s.dryRun ==> (s.lock.Some? <==> s.late))
    && (s.place.Remove? ==> (s.lock != s.record <==> s.swallowed))
    && (s.place.ReadAgain? ==> !s.swallowed)
    && (s.place.Begin? || s.place.ReadLock? || s.place.Judge? ==> !s.swallowed)
    && (s.wrote && HasRead(s.place) && s.lock.None? ==> (s.refreshed != s.record <==> s.swallowed))
  }

  predicate Inv(s: State) {
    StatusInv(s) && PlaceInv(s) && LockInv(s)
  }

  lemma StepKeepsPlace(s: State, step: Step)
    requires Inv(s)
    ensures PlaceInv(Take(s, step))
  {
  }

  lemma StepKeepsStatus(s: State, step: Step)
    requires Inv(s)
    ensures StatusInv(Take(s, step))
  {
  }

  lemma StepKeepsLock(s: State, step: Step)
    requires Inv(s)
    ensures LockInv(Take(s, step))
  {
  }

  lemma {:induction false} RunKeepsInv(s: State, steps: seq<Step>)
    requires Inv(s)
    ensures Inv(Run(s, steps)) && Run(s, steps).entry == s.entry && Run(s, steps).dryRun == s.dryRun
    decreases |steps|
  {
    if steps != [] {
      assert Inv(Take(s, steps[0])) by {
        StepKeepsPlace(s, steps[0]);
        StepKeepsStatus(s, steps[0]);
        StepKeepsLock(s, steps[0]);
      }
      RunKeepsInv(Take(s, steps[0]), steps[1..]);
    }
  }

  /** A status found on entry is never altered, at any point of any interleaving. */
  lemma StatusFoundIsKept(lock: Option<LockRecord>, status: Status, dryRun: bool, steps: seq<Step>)
    ensures Run(Start(lock, Some(status), dryRun), steps).status == Some(status)
  {
    RunKeepsInv(Start(lock, Some(status), dryRun), steps);
  }

  /** A run judged alive, and any directory on a dry run, is left as the heartbeat alone would leave it. */
  lemma RunningIsUntouched(lock: Option<LockRecord>, status: Option<Status>, dryRun: bool, steps: seq<Step>)
    ensures var s := Run(Start(lock, status, dryRun), steps);
            dryRun || s.place == Done(Running) ==> s.status == status && s.lock == s.refreshed
  {
    RunKeepsInv(Start(lock, status, dryRun), steps);
  }

  /** A contested verdict has been taken back: no status, and the lock is the one the heartbeat last wrote. */
  lemma ContestedIsWithdrawn(lock: Option<LockRecord>, status: Option<Status>, dryRun: bool, steps: seq<Step>)
    ensures var s := Run(Start(lock, status, dryRun), steps);
            s.place == Done(Contested) ==> status.None? && s.status.None? && s.lock.Some? && s.lock == s.refreshed
  {
    RunKeepsInv(Start(lock, status, dryRun), steps);
  }

  /** A reaped run carries the failure; a lock stands beside it exactly when the heartbeat wrote after the last read. */
  lemma ReapedIsFailed(lock: Option<LockRecord>, status: Option<Status>, steps: seq<Step>)
    ensures var s := Run(Start(lock, status, false), steps);
            s.place == Done(Reaped) ==>
              && status.None? && s.record.Some? && s.status == Some(Killed(s.record.value))
              && (s.lock.Some? <==> s.late)
  {
    RunKeepsInv(Start(lock, status, false), steps);
  }

  /**
   Without a late write, a reaped run is one whose lock had moved since it was
   judged if and only if the heartbeat moved it after the second read.
  */
  lemma SwallowedExactly(lock: Option<LockRecord>, status: Option<Status>, steps: seq<Step>)
    ensures var s := Run(Start(lock, status, false), steps);
            s.place == Done(Reaped) && !s.late ==> s.lock.None? && (s.refreshed != s.record <==> s.swallowed)
  {
    RunKeepsInv(Start(lock, status, false), steps);
  }

  /** Beside a status found on entry no lock is left, unless the heartbeat wrote it after the collector was done. */
  lemma LeftoverIsRemoved(lock: Option<LockRecord>, status: Status, steps: seq<Step>)
    ensures var s := Run(Start(lock, Some(status), false), steps);
            s.place == Done(Nothing) ==> (s.lock.Some? <==> s.late)
  {
    RunKeepsInv(Start(lock, Some(status), false), steps);
  }

  // The judgement decides

  /** From here on a run has been judged dead. */
  predicate PastJudgement(p: Place) {
    p.ReadAgain? || p.Remove? || p.WriteFailed? || p.LastRead? || p.Withdraw?
    || (p.Done? && (p.outcome.Reaped? || p.outcome.Contested?))
  }

  /** The collector judged the lock stale at this step. */
  ghost predicate JudgedStale(start: State, steps: seq<Step>, k: nat) {
    k < |steps| && steps[k] == Collect(true) && Run(start, steps[..k]).place.Judge?
  }

  lemma CrossingIsStale(s: State, step: Step)
    requires !PastJudgement(s.place) && PastJudgement(Take(s, step).place)
    ensures s.place.Judge? && step == Collect(true)
  {
  }

  lemma {:induction false} PastOnlyByJudgement(start: State, steps: seq<Step>)
    requires !PastJudgement(start.place) && PastJudgement(Run(start, steps).place)
    ensures exists k: nat :: JudgedStale(start, steps, k)
    decreases |steps|
  {
    if steps != [] {
      var last := |steps| - 1;
      var before := steps[..last];
      assert steps == before + [steps[last]];
      OneMore(start, before, steps[last]);
      if PastJudgement(Run(start, before).place) {
        PastOnlyByJudgement(start, before);
        var k: nat :| JudgedStale(start, before, k);
        assert before[..k] == steps[..k];
        assert JudgedStale(start, steps, k);
      } else {
        CrossingIsStale(Run(start, before), steps[last]);
        assert JudgedStale(start, steps, last);
      }
    }
  }

  /** A run is reaped or contested, and a directory without a status is written to, only after a stale judgement. */
  lemma ReapedOnlyIfStale(lock: Option<LockRecord>, status: Option<Status>, dryRun: bool, steps: seq<Step>)
    ensures var start := Start(lock, status, dryRun); var s := Run(start, steps);
            s.place == Done(Reaped) || s.place == Done(Contested) || (status.None? && s.wrote) ==>
            exists k: nat :: JudgedStale(start, steps, k)
  {
    var start := Start(lock, status, dryRun);
    RunKeepsInv(start, steps);
    var s := Run(start, steps);
    assert s.place.Done? ==> s.place.outcome.Nothing? || s.place.outcome.Running? || PastJudgement(s.place);
    assert status.None? && s.wrote ==> PastJudgement(s.place);
    if PastJudgement(s.place) { PastOnlyByJudgement(start, steps); }
  }

  predicate Alive(steps: seq<Step>) {
    forall i :: 0 <= i < |steps| ==> steps[i] != Collect(true)
  }

  /** Where every judgement is that the run is alive, nothing happens to it, whatever interleaves. */
  lemma LivingRunIsUntouched(lock: Option<LockRecord>, dryRun: bool, steps: seq<Step>)
    requires Alive(steps)
    ensures var s := Run(Start(lock, None, dryRun), steps);
            s.place != Done(Reaped) && s.place != Done(Contested) && s.status.None? && s.lock == s.refreshed
  {
    RunKeepsInv(Start(lock, None, dryRun), steps);
    ReapedOnlyIfStale(lock, None, dryRun, steps);
  }

  /** What the collector leaves of a directory nobody else touches. */
  datatype Collected = Collected(outcome: Outcome, lock: Option<LockRecord>, status: Option<Status>)

  function Verdict(lock: Option<LockRecord>, status: Option<Status>, dryRun: bool, stale: bool): Collected {
    if status.Some? then Collected(Nothing, if dryRun then lock else None, status)
    else match lock
      case None => Collected(Nothing, None, None)
      case Some(record) =>
        if !stale then Collected(Running, lock, None)
        else if dryRun then Collected(Reaped, lock, None)
        else Collected(Reaped, None, Some(Killed(record)))
  }

  function Collects(stale: bool, n: nat): seq<Step> {
    if n == 0 then [] else [Collect(stale)] + Collects(stale, n - 1)
  }

  lemma OneCollects(s: State, stale: bool, n: nat)
    requires n > 0
    ensures Run(s, Collects(stale, n)) == Run(CollectStep(s, stale), Collects(stale, n - 1))
  {
    assert Collects(stale, n)[1..] == Collects(stale, n - 1);
  }

  lemma TwoCollect(s: State, stale: bool, n: nat)
    requires n > 1
    ensures Run(s, Collects(stale, n)) == Run(CollectStep(CollectStep(s, stale), stale), Collects(stale, n - 2))
  {
    OneCollects(s, stale, n);
    OneCollects(CollectStep(s, stale), stale, n - 1);
  }

  lemma {:induction false} Rests(s: State, stale: bool, n: nat)
    requires s.place.Done?
    ensures Run(s, Collects(stale, n)) == s
  {
    if n > 0 {
      OneCollects(s, stale, n);
      Rests(s, stale, n - 1);
    }
  }

  /** A directory with a status: at most three steps. */
  lemma UndisturbedLeftover(lock: Option<LockRecord>, status: Status, dryRun: bool, stale: bool)
    ensures var s := Run(Start(lock, Some(status), dryRun), Collects(stale, 8));
            s.place == Done(Nothing) && s.lock == (if dryRun then lock else None) && s.status == Some(status)
  {
    var s := Start(lock, Some(status), dryRun);
    TwoCollect(s, stale, 8);
    s := CollectStep(CollectStep(s, stale), stale);
    OneCollects(s, stale, 6);
    Rests(CollectStep(s, stale), stale, 5);
  }

  /** One without, up to the second read. */
  lemma UndisturbedJudgement(lock: Option<LockRecord>, dryRun: bool, stale: bool)
    ensures var s := CollectStep(CollectStep(CollectStep(Start(lock, None, dryRun), stale), stale), stale);
            && s.lock == lock && s.status.None? && s.record == lock && s.dryRun == dryRun
            && s.place == (if lock.None? then Done(Nothing) else if !stale then Done(Running)
                           else if dryRun then Done(Reaped) else ReadAgain)
  {
  }

  lemma UndisturbedReaping(s: State, stale: bool)
    requires s.place.ReadAgain? && s.lock == s.record && s.lock.Some?
    ensures var t := Run(s, Collects(stale, 5));
            t.place == Done(Reaped) && t.lock.None? && t.status == Some(Killed(s.record.value))
  {
    TwoCollect(s, stale, 5);
    var t := CollectStep(CollectStep(s, stale), stale);
    TwoCollect(t, stale, 3);
    t := CollectStep(CollectStep(t, stale), stale);
    Rests(t, stale, 1);
  }

  /** Undisturbed, the collector is done after eight steps, with the verdict status, lock and judgement call for. */
  lemma UndisturbedVerdict(lock: Option<LockRecord>, status: Option<Status>, dryRun: bool, stale: bool)
    ensures var s := Run(Start(lock, status, dryRun), Collects(stale, 8));
            s.place.Done? && Collected(s.place.outcome, s.lock, s.status) == Verdict(lock, status, dryRun, stale)
  {
    if status.Some? {
      UndisturbedLeftover(lock, status.value, dryRun, stale);
    } else {
      var s0 := Start(lock, None, dryRun);
      var s := CollectStep(CollectStep(CollectStep(s0, stale), stale), stale);
      TwoCollect(s0, stale, 8);
      OneCollects(CollectStep(CollectStep(s0, stale), stale), stale, 6);
      UndisturbedJudgement(lock, dryRun, stale);
      if s.place.Done? { Rests(s, stale, 5); } else { UndisturbedReaping(s, stale); }
    }
  }

  lemma {:induction false} OneMore(s: State, steps: seq<Step>, step: Step)
    ensures Run(s, steps + [step]) == Take(Run(s, steps), step)
    decreases |steps|
  {
    if steps == [] {
      assert steps + [step] == [step] && [step][1..] == [];
      assert Run(Take(s, step), []) == Take(s, step);
    } else {
      assert (steps + [step])[0] == steps[0] && (steps + [step])[1..] == steps[1..] + [step];
      OneMore(Take(s, steps[0]), steps[1..], step);
    }
  }

  /** Three more steps of the collector, each judging the lock stale. */
  lemma ThreeMore(s: State, steps: seq<Step>) returns (longer: seq<Step>)
    ensures Run(s, longer) == CollectStep(CollectStep(CollectStep(Run(s, steps), true), true), true)
  {
    var go := Collect(true);
    OneMore(s, steps, go);
    OneMore(s, steps + [go], go);
    OneMore(s, steps + [go] + [go], go);
    longer := steps + [go] + [go] + [go];
  }

  /** The collector, about to remove a stale lock. */
  function Removing(record: LockRecord): State {
    Start(Some(record), None, false).(place := Remove, record := Some(record))
  }

  lemma ReachesRemoval(record: LockRecord) returns (steps: seq<Step>)
    ensures Run(Start(Some(record), None, false), steps) == Removing(record)
  {
    var s := Start(Some(record), None, false);
    assert Run(s, []) == s;
    steps := ThreeMore(s, []);
    OneMore(s, steps, Collect(true));
    steps := steps + [Collect(true)];
  }

  /** A stale lock that nobody refreshes while the collector works is reaped. */
  lemma StaleIsReaped(record: LockRecord) returns (steps: seq<Step>)
    ensures Run(Start(Some(record), None, false), steps) ==
            Removing(record).(place := Done(Reaped), lock := None, status := Some(Killed(record)), wrote := true)
  {
    steps := ReachesRemoval(record);
    steps := ThreeMore(Start(Some(record), None, false), steps);
  }

  /**
   The second read does not close the window it is there to close: a refresh
   between it and the removal is swallowed, and the live run is recorded failed.
  */
  lemma RefreshBeforeRemovalIsLost(record: LockRecord, again: LockRecord) returns (steps: seq<Step>)
    ensures var s := Run(Start(Some(record), None, false), steps);
            s.place == Done(Reaped) && s.refreshed == Some(again) && s.lock.None? && s.status == Some(Killed(record))
            && !s.late && (s.swallowed <==> again != record)
  {
    var start := Start(Some(record), None, false);
    steps := ReachesRemoval(record);
    OneMore(start, steps, Refresh(again));
    steps := ThreeMore(start, steps + [Refresh(again)]);
  }

  /** The last read is not the last word: a refresh after it leaves the failed status beside a lock. */
  lemma LateRefreshLeavesBoth(record: LockRecord, again: LockRecord) returns (steps: seq<Step>)
    ensures var s := Run(Start(Some(record), None, false), steps);
            s.place == Done(Reaped) && s.status == Some(Killed(record)) && s.lock == Some(again)
  {
    steps := StaleIsReaped(record);
    OneMore(Start(Some(record), None, false), steps, Refresh(again));
    steps := steps + [Refresh(again)];
  }
}
