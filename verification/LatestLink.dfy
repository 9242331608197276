/**
 Concurrent finishers updating the `latest_finished` link. Their mutex is a file
 that has to be created anew.

 Every process takes atomic steps: try to create the file, judge an existing
 file abandoned, remove a file so judged, read the link, decide, replace the
 link, release. A process may die at any point and leave the file behind.
 Exclusion holds if and only if every takeover is sound, the order of the link
 needs nothing but exclusion, and the code's own check does not establish either
 when two waiters judge at once.
*/
module LatestLink {
  import opened Wrappers

  datatype Place =
    | Waiting
    | Judged                          // decided that the mutex file is abandoned
    | Holding                         // created the mutex file
    | Compared(seen: Option<int>)     // read the instant of the run the link points at
    | Replacing
    | Releasing
    | Finished
    | Dead

  /** `at` is the instant the run finished; absent when it cannot be parsed. */
  datatype Process = Process(at: Option<int>, place: Place)

  /** `file` is who created the mutex file; `link` is the instant pointed at. */
  datatype State = State(file: Option<nat>, link: Option<int>, procs: seq<Process>)

  datatype Step = Act(who: nat) | Consider(who: nat) | Die(who: nat)

  function Move(s: State, i: nat, place: Place): State
    requires i < |s.procs|
  {
    s.(procs := s.procs[i := s.procs[i].(place := place)])
  }

  predicate NotNewer(link: Option<int>, at: int) {
    link.Some? && link.value >= at
  }

  function ActStep(s: State, i: nat): State
    requires i < |s.procs|
  {
    var p := s.procs[i];
    match p.place
    case Waiting => if s.file.None? then Move(s, i, Holding).(file := Some(i)) else s
    case Judged => Move(s, i, Waiting).(file := None)
    case Holding => Move(s, i, if p.at.None? then Releasing else Compared(s.link))
    case Compared(seen) => Move(s, i, if p.at.None? || NotNewer(seen, p.at.value) then Releasing else Replacing)
    case Replacing => Move(s, i, Releasing).(link := p.at)
    case Releasing => Move(s, i, Finished).(file := None)
    case Finished => s
    case Dead => s
  }

  function Take(s: State, step: Step): State {
    if step.who >= |s.procs| then s
    else match step
      case Act(i) => ActStep(s, i)
      case Consider(i) => if s.procs[i].place.Waiting? && s.file.Some? then Move(s, i, Judged) else s
      case Die(i) => if s.procs[i].place.Finished? then s else Move(s, i, Dead)
  }

  function Run(s: State, steps: seq<Step>): State
    decreases |steps|
  {
    if steps == [] then s else Run(Take(s, steps[0]), steps[1..])
  }

  // What the mutex protects

  predicate Critical(p: Place) {
    p.Holding? || p.Compared? || p.Replacing? || p.Releasing?
  }

  predicate Abandoned(s: State) {
    s.file.Some? && s.file.value < |s.procs| && s.procs[s.file.value].place.Dead?
  }

  /** A takeover removes nothing but a dead holder's file. */
  predicate SoundTakeover(s: State, step: Step) {
    step.Act? && step.who < |s.procs| && s.procs[step.who].place.Judged? ==> s.file.None? || Abandoned(s)
  }

  ghost predicate AllSound(s: State, steps: seq<Step>)
    decreases |steps|
  {
    steps == [] || (SoundTakeover(s, steps[0]) && AllSound(Take(s, steps[0]), steps[1..]))
  }

  /** What a process knows of the link at each place, and what the link owes it. */
  predicate Consistent(p: Process, link: Option<int>) {
    match p.place
    case Compared(seen) => p.at.Some? && seen == link
    case Replacing => p.at.Some? && !NotNewer(link, p.at.value)
    case Releasing => p.at.Some? ==> NotNewer(link, p.at.value)
    case Finished => p.at.Some? ==> NotNewer(link, p.at.value)
    case _ => true
  }

  ghost predicate OwnersAreRight(s: State) {
    && (forall i :: 0 <= i < |s.procs| && Critical(s.procs[i].place) ==> s.file == Some(i))
    && (s.file.Some? ==>
          s.file.value < |s.procs| &&
          (Critical(s.procs[s.file.value].place) || s.procs[s.file.value].place.Dead?))
  }

  ghost predicate Inv(s: State) {
    OwnersAreRight(s) && AllConsistent(s)
  }

  /** The link does not move, or moves to a later instant. */
  predicate Advances(a: Option<int>, b: Option<int>) {
    a == b || (b.Some? && (a.Some? ==> a.value < b.value))
  }

  lemma StepKeepsOwners(s: State, step: Step)
    requires OwnersAreRight(s) && SoundTakeover(s, step)
    ensures OwnersAreRight(Take(s, step))
  {
  }

  /** Everyone who is inside knows the link as it is, and everyone who has finished is not ahead of it. */
  ghost predicate AllConsistent(s: State) {
    forall i :: 0 <= i < |s.procs| ==> Consistent(s.procs[i], s.link)
  }

  /** No two processes are inside. */
  ghost predicate Excludes(s: State) {
    forall i, j :: 0 <= i < j < |s.procs| ==> !(Critical(s.procs[i].place) && Critical(s.procs[j].place))
  }

  lemma StepAdvances(s: State, step: Step)
    requires AllConsistent(s)
    ensures Advances(s.link, Take(s, step).link)
  {
    if step.who < |s.procs| { assert Consistent(s.procs[step.who], s.link); }
  }

  lemma StepKeepsConsistent(s: State, step: Step)
    requires AllConsistent(s) && Excludes(s)
    ensures AllConsistent(Take(s, step))
  {
    StepAdvances(s, step);
    var t := Take(s, step);
    forall i | 0 <= i < |t.procs|
      ensures Consistent(t.procs[i], t.link)
    {
      assert Consistent(s.procs[i], s.link);
      if step.who < |s.procs| { assert Consistent(s.procs[step.who], s.link); }
    }
  }

  lemma StepKeepsInv(s: State, step: Step)
    requires Inv(s) && SoundTakeover(s, step)
    ensures Inv(Take(s, step))
  {
    StepKeepsOwners(s, step);
    StepKeepsConsistent(s, step);
  }

  /** At the start everyone waits, or is dead; the file is absent, or left by the dead. */
  predicate Initial(s: State) {
    && (forall p :: p in s.procs ==> p.place.Waiting? || p.place.Dead?)
    && (s.file.None? || Abandoned(s))
  }

  lemma InitialIsRight(s: State)
    requires Initial(s)
    ensures Inv(s)
  {
  }

  // Exclusion

  /** No two processes are inside at any point of the run, nor after one more step that anyone could take there. */
  ghost predicate ExcludesAlong(s: State, steps: seq<Step>)
    decreases |steps|
  {
    Excludes(s) && (forall who: nat :: Excludes(Take(s, Act(who)))) &&
    (steps == [] || ExcludesAlong(Take(s, steps[0]), steps[1..]))
  }

  lemma OwnersExclude(s: State)
    requires OwnersAreRight(s)
    ensures Excludes(s) && forall who: nat :: Excludes(Take(s, Act(who)))
  {
  }

  /** A takeover that removes a living holder's file lets the taker in beside it. */
  lemma UnsoundTakeoverBreaksExclusion(s: State, i: nat)
    requires OwnersAreRight(s) && i < |s.procs| && s.procs[i].place.Judged? && !SoundTakeover(s, Act(i))
    ensures !Excludes(Take(Take(s, Act(i)), Act(i)))
  {
    var j := s.file.value;
    var t := Take(Take(s, Act(i)), Act(i));
    assert j != i && Critical(t.procs[i].place) && Critical(t.procs[j].place);
  }

  /** No two processes, of any number, can be inside along a run if and only if its takeovers are all sound. */
  lemma {:induction false} ExclusionIff(s: State, steps: seq<Step>)
    requires OwnersAreRight(s)
    ensures ExcludesAlong(s, steps) <==> AllSound(s, steps)
    decreases |steps|
  {
    OwnersExclude(s);
    if steps != [] {
      if SoundTakeover(s, steps[0]) {
        StepKeepsOwners(s, steps[0]);
        ExclusionIff(Take(s, steps[0]), steps[1..]);
      } else {
        UnsoundTakeoverBreaksExclusion(s, steps[0].who);
      }
    }
  }

  /** While every takeover is sound, no two living processes are between creating the file and releasing it. */
  lemma {:induction false} MutualExclusion(s: State, steps: seq<Step>)
    requires OwnersAreRight(s) && AllSound(s, steps)
    ensures Excludes(Run(s, steps)) && ExcludedSoFar(s, steps)
    decreases |steps|
  {
    OwnersExclude(s);
    if steps != [] {
      StepKeepsOwners(s, steps[0]);
      MutualExclusion(Take(s, steps[0]), steps[1..]);
    }
  }

  // The order of the link

  /** Two processes were never inside at once before the last of these steps. */
  ghost predicate ExcludedSoFar(s: State, steps: seq<Step>)
    decreases |steps|
  {
    steps == [] || (Excludes(s) && ExcludedSoFar(Take(s, steps[0]), steps[1..]))
  }

  lemma {:induction false} RunKeepsConsistent(s: State, steps: seq<Step>)
    requires AllConsistent(s) && ExcludedSoFar(s, steps)
    ensures AllConsistent(Run(s, steps)) && |Run(s, steps).procs| == |s.procs|
    decreases |steps|
  {
    if steps != [] {
      StepKeepsConsistent(s, steps[0]);
      RunKeepsConsistent(Take(s, steps[0]), steps[1..]);
    }
  }

  /** As long as two processes have not been inside at once, every change of the link moves it to a later instant. */
  lemma LinkNeverGoesBack(s: State, before: seq<Step>, step: Step)
    requires Initial(s) && ExcludedSoFar(s, before)
    ensures Advances(Run(s, before).link, Take(Run(s, before), step).link)
  {
    RunKeepsConsistent(s, before);
    StepAdvances(Run(s, before), step);
  }

  /** The link's instant is the first one, or some process's. */
  ghost predicate FromSomeone(link: Option<int>, first: Option<int>, procs: seq<Process>) {
    link == first || exists p :: p in procs && p.at == link
  }

  ghost predicate SameInstants(a: seq<Process>, b: seq<Process>) {
    |a| == |b| && forall i :: 0 <= i < |a| ==> a[i].at == b[i].at
  }

  lemma {:induction false} LinkIsFromSomeone(s: State, steps: seq<Step>)
    ensures FromSomeone(Run(s, steps).link, s.link, s.procs) && SameInstants(Run(s, steps).procs, s.procs)
    decreases |steps|
  {
    if steps != [] {
      var t := Take(s, steps[0]);
      LinkIsFromSomeone(t, steps[1..]);
      var link := Run(s, steps).link;
      assert SameInstants(t.procs, s.procs);
      if exists p :: p in t.procs && p.at == link {
        var i :| 0 <= i < |t.procs| && t.procs[i].at == link;
        assert s.procs[i].at == link;
      } else {
        assert link == t.link;
      }
    }
  }

  /**
   And the link is at least every finished instant, and is the first link's or
   one of the processes' own.
  */
  lemma LinkEndsLatest(s: State, steps: seq<Step>, i: nat)
    requires Initial(s) && ExcludedSoFar(s, steps) && i < |s.procs|
    ensures |Run(s, steps).procs| == |s.procs|
    ensures var t := Run(s, steps);
            && FromSomeone(t.link, s.link, s.procs)
            && (t.procs[i].place.Finished? && s.procs[i].at.Some? ==> NotNewer(t.link, s.procs[i].at.value))
  {
    RunKeepsConsistent(s, steps);
    LinkIsFromSomeone(s, steps);
    var t := Run(s, steps);
    assert Consistent(t.procs[i], t.link);
  }

  // When takeovers are sound

  ghost predicate OnlyJudge(s: State, who: nat) {
    forall i :: 0 <= i < |s.procs| && i != who ==> !s.procs[i].place.Judged?
  }

  /** The judgement is right when it is made, and nobody else has one pending. */
  ghost predicate CarefulStep(s: State, step: Step) {
    step.Consider? && step.who < |s.procs| && s.procs[step.who].place.Waiting? && s.file.Some? ==>
        Abandoned(s) && OnlyJudge(s, step.who)
  }

  ghost predicate AllCareful(s: State, steps: seq<Step>)
    decreases |steps|
  {
    steps == [] || (CarefulStep(s, steps[0]) && AllCareful(Take(s, steps[0]), steps[1..]))
  }

  /** At most one judgement is pending, and it is still right. */
  ghost predicate JudgementHolds(s: State) {
    forall i :: 0 <= i < |s.procs| && s.procs[i].place.Judged? ==> Abandoned(s) && OnlyJudge(s, i)
  }

  lemma CarefulStepKeeps(s: State, step: Step)
    requires OwnersAreRight(s) && JudgementHolds(s) && CarefulStep(s, step)
    ensures SoundTakeover(s, step) && JudgementHolds(Take(s, step))
  {
  }

  /** If judgements are right when made and never overlap, every takeover is sound. */
  lemma {:induction false} CarefulRunsAreSound(s: State, steps: seq<Step>)
    requires OwnersAreRight(s) && JudgementHolds(s) && AllCareful(s, steps)
    ensures AllSound(s, steps)
    decreases |steps|
  {
    if steps != [] {
      CarefulStepKeeps(s, steps[0]);
      StepKeepsOwners(s, steps[0]);
      CarefulRunsAreSound(Take(s, steps[0]), steps[1..]);
    }
  }

  // Two waiters that both judge rightly

  /** A dead holder and two finishers, the second with the later instant. */
  function Scene(file: Option<nat>, link: Option<int>, first: Place, second: Place): State {
    State(file, link, [Process(None, Dead), Process(Some(1), first), Process(Some(2), second)])
  }

  lemma FirstMoves(file: Option<nat>, link: Option<int>, first: Place, second: Place, to: Place)
    ensures Move(Scene(file, link, first, second), 1, to) == Scene(file, link, to, second)
  {
    assert Scene(file, link, first, second).procs[1 := Process(Some(1), to)] == Scene(file, link, to, second).procs;
  }

  lemma SecondMoves(file: Option<nat>, link: Option<int>, first: Place, second: Place, to: Place)
    ensures Move(Scene(file, link, first, second), 2, to) == Scene(file, link, first, to)
  {
    assert Scene(file, link, first, second).procs[2 := Process(Some(2), to)] == Scene(file, link, first, to).procs;
  }

  lemma {:induction false} OneMore(s: State, steps: seq<Step>, step: Step)
    ensures Run(s, steps + [step]) == Take(Run(s, steps), step)
    decreases |steps|
  {
    if steps == [] {
      assert steps + [step] == [step] && [step][1..] == [];
      assert Run(Take(s, step), []) == Take(s, step);
    } else {
      assert (steps + [step])[0] == steps[0] && (steps + [step])[1..] == steps[1..] + [step];
      OneMore(Take(s, steps[0]), steps[1..], step);
    }
  }

  /**
   Both judge the dead holder's file abandoned; the first takes it over, and the second removes the
   first's new file.
  */
  lemma BothEnter() returns (steps: seq<Step>)
    ensures Run(Scene(Some(0), None, Waiting, Waiting), steps) == Scene(Some(2), None, Holding, Holding)
  {
    var s := Scene(Some(0), None, Waiting, Waiting);
    FirstMoves(Some(0), None, Waiting, Waiting, Judged);
    SecondMoves(Some(0), None, Judged, Waiting, Judged);
    FirstMoves(Some(0), None, Judged, Judged, Waiting);
    FirstMoves(None, None, Waiting, Judged, Holding);
    SecondMoves(Some(1), None, Holding, Judged, Waiting);
    SecondMoves(None, None, Holding, Waiting, Holding);
    OneMore(s, [], Consider(1));
    OneMore(s, [Consider(1)], Consider(2));
    var both := [Consider(1)] + [Consider(2)];
    OneMore(s, both, Act(1));
    OneMore(s, both + [Act(1)], Act(1));
    var one := both + [Act(1)] + [Act(1)];
    OneMore(s, one, Act(2));
    OneMore(s, one + [Act(2)], Act(2));
    steps := one + [Act(2)] + [Act(2)];
  }

  /** From there the link can go back: the later instant is installed first, the earlier one over it. */
  lemma LinkGoesBack() returns (steps: seq<Step>, last: Step)
    ensures var s := Run(Scene(Some(0), None, Waiting, Waiting), steps);
            s.link == Some(2) && Take(s, last).link == Some(1)
  {
    var s := Scene(Some(0), None, Waiting, Waiting);
    steps := BothEnter();
    FirstMoves(Some(2), None, Holding, Holding, Compared(None));
    FirstMoves(Some(2), None, Compared(None), Holding, Replacing);
    SecondMoves(Some(2), None, Replacing, Holding, Compared(None));
    SecondMoves(Some(2), None, Replacing, Compared(None), Replacing);
    SecondMoves(Some(2), None, Replacing, Replacing, Releasing);
    FirstMoves(Some(2), Some(2), Replacing, Releasing, Releasing);
    OneMore(s, steps, Act(1));
    OneMore(s, steps + [Act(1)], Act(1));
    steps := steps + [Act(1)] + [Act(1)];
    assert Run(s, steps) == Scene(Some(2), None, Replacing, Holding);
    OneMore(s, steps, Act(2));
    OneMore(s, steps + [Act(2)], Act(2));
    OneMore(s, steps + [Act(2)] + [Act(2)], Act(2));
    steps := steps + [Act(2)] + [Act(2)] + [Act(2)];
    assert Run(s, steps) == Scene(Some(2), Some(2), Replacing, Releasing);
    last := Act(1);
  }
}
