/**
 Where a repeated deletion ends. The theorem of this module is an equivalence:
 a command can be stopped after any number of stages and repeated to the state
 it would have reached, if and only if no run it plans for has a second copy
 that the selection takes, and no tombstone names a link that is not the run's.
*/
module DeletionRepeat {
  import opened Wrappers
  import opened TextOrder
  import opened Deletion
  import opened DeletionScan
  import opened DeletionProgress
  import opened DeletionAgain
  import opened DeletionRestart

  // The same end

  /** Two lines that differ at most in the words and the time of the request that wrote them. */
  predicate SameLine(a: Line, b: Line, again: Request, request: Request) {
    a == b ||
    (a.Recorded? && b.Recorded? &&
     b.tombstone.reason == request.reason && b.tombstone.stamp == request.stamp &&
     a.tombstone == b.tombstone.(reason := again.reason, stamp := again.stamp))
  }

  ghost predicate SameLines(a: seq<Line>, b: seq<Line>, again: Request, request: Request) {
    |a| == |b| && forall i :: 0 <= i < |a| ==> SameLine(a[i], b[i], again, request)
  }

  ghost predicate SameEnd(a: World, b: World, again: Request, request: Request) {
    a.sources == b.sources && a.vault == b.vault && a.links == b.links && SameLines(a.lines, b.lines, again, request)
  }

  /** Repeated in the same words at the same time, the ends are equal. */
  lemma SameWordsSameEnd(a: World, b: World, request: Request)
    requires SameEnd(a, b, request, request)
    ensures a == b
  {
    forall i | 0 <= i < |a.lines|
      ensures a.lines[i] == b.lines[i]
    {
      assert SameLine(a.lines[i], b.lines[i], request, request);
    }
  }

  /** The link a tombstone names. */
  function TombstoneLink(p: DeletePlan): Link {
    Link(p.tombstone.experiment, p.tombstone.runSlug, p.runUid)
  }

  /** Restarting from the tombstone alone removes the run's own link, or none. */
  predicate Harmless(w: World, p: DeletePlan) {
    TombstoneLink(p) == LinkOf(p) || TombstoneLink(p) !in w.links
  }

  ghost predicate AllHarmless(c: Command) {
    forall p :: p in c.plans ==> Harmless(c.w, p)
  }

  // What the first plans and the plans made again remove between them

  /** What a plan made again takes, by how far the first had got. */
  lemma TakenAgain(p: DeletePlan, passed: nat, again: Request)
    ensures DirsOf(PlanAgain(p, passed, again)) <= DirsOf(p) && PlacesOf(PlanAgain(p, passed, again)) <= PlacesOf(p)
    ensures passed <= 2 ==> DirsOf(PlanAgain(p, passed, again)) == DirsOf(p)
    ensures passed <= 1 ==> PlacesOf(PlanAgain(p, passed, again)) == PlacesOf(p)
    ensures LinkOf(PlanAgain(p, passed, again)) in {LinkOf(p), TombstoneLink(p)}
    ensures passed <= 1 || (passed == 2 && p.sourceDir.Some?) ==> LinkOf(PlanAgain(p, passed, again)) == LinkOf(p)
  {
  }

  lemma IsMadeAgain(plans: seq<DeletePlan>, at: Spot, selection: Selection, again: Request, i: nat)
    requires at.Within(plans) && First(selection, plans, at) <= i < |plans|
    ensures AgainAt(plans, at, again, i) in PlansAgain(plans, at, First(selection, plans, at), again)
  {
    var first := First(selection, plans, at);
    assert PlansAgain(plans, at, first, again)[i - first] == AgainAt(plans, at, again, i);
  }

  /** Where a plan made again comes from. */
  lemma AgainFrom(
    plans: seq<DeletePlan>, at: Spot, selection: Selection, again: Request, q: DeletePlan) returns (i: nat)
    requires at.Within(plans) && q in PlansAgain(plans, at, First(selection, plans, at), again)
    ensures First(selection, plans, at) <= i < |plans|
    ensures q == AgainAt(plans, at, again, i)
  {
    var first := First(selection, plans, at);
    var k :| 0 <= k < |plans| - first && PlansAgain(plans, at, first, again)[k] == q;
    i := first + k;
  }

  lemma DirTaken(plans: seq<DeletePlan>, at: Spot, again: Request, d: string)
    requires at.Within(plans)
    ensures d in AllDirs(plans[..at.removed]) + AllDirs(PlansAgain(plans, at, First(again.selection, plans, at), again))
       <==> d in AllDirs(plans)
  {
    var begun, rest := plans[..at.removed], PlansAgain(plans, at, First(again.selection, plans, at), again);
    InAllDirs(begun, d);
    InAllDirs(rest, d);
    InAllDirs(plans, d);
    assert forall p :: p in begun ==> p in plans;
    if d in AllDirs(plans) {
      var i :| 0 <= i < |plans| && d in DirsOf(plans[i]);
      if i < at.removed {
        assert begun[i] == plans[i];
      } else {
        IsMadeAgain(plans, at, again.selection, again, i);
        TakenAgain(plans[i], StagesOf(i, at.buried, at.cleared, at.removed), again);
      }
    }
    if d in AllDirs(rest) {
      var q :| q in rest && d in DirsOf(q);
      var i := AgainFrom(plans, at, again.selection, again, q);
      TakenAgain(plans[i], StagesOf(i, at.buried, at.cleared, at.removed), again);
    }
  }

  lemma PlaceTaken(plans: seq<DeletePlan>, at: Spot, again: Request, place: Place)
    requires at.Within(plans)
    ensures place in AllPlaces(plans[..at.cleared])
        + AllPlaces(PlansAgain(plans, at, First(again.selection, plans, at), again))
       <==> place in AllPlaces(plans)
  {
    var begun, rest := plans[..at.cleared], PlansAgain(plans, at, First(again.selection, plans, at), again);
    InAllPlaces(begun, place);
    InAllPlaces(rest, place);
    InAllPlaces(plans, place);
    assert forall p :: p in begun ==> p in plans;
    if place in AllPlaces(plans) {
      var i :| 0 <= i < |plans| && place in PlacesOf(plans[i]);
      if i < at.cleared {
        assert begun[i] == plans[i];
      } else {
        IsMadeAgain(plans, at, again.selection, again, i);
        TakenAgain(plans[i], StagesOf(i, at.buried, at.cleared, at.removed), again);
      }
    }
    if place in AllPlaces(rest) {
      var q :| q in rest && place in PlacesOf(q);
      var i := AgainFrom(plans, at, again.selection, again, q);
      TakenAgain(plans[i], StagesOf(i, at.buried, at.cleared, at.removed), again);
    }
  }

  lemma LinkTaken(w: World, plans: seq<DeletePlan>, at: Spot, again: Request, link: Link)
    requires at.Within(plans) && link in w.links
    requires again.selection.RunUids? ==> forall p :: p in plans ==> Harmless(w, p)
    ensures link in AllLinks(plans[..at.cleared])
        + AllLinks(PlansAgain(plans, at, First(again.selection, plans, at), again))
       <==> link in AllLinks(plans)
  {
    var begun, rest := plans[..at.cleared], PlansAgain(plans, at, First(again.selection, plans, at), again);
    InAllLinks(begun, link);
    InAllLinks(rest, link);
    InAllLinks(plans, link);
    assert forall p :: p in begun ==> p in plans;
    if link in AllLinks(plans) {
      var i :| 0 <= i < |plans| && link == LinkOf(plans[i]);
      if i < at.cleared {
        assert begun[i] == plans[i];
      } else {
        IsMadeAgain(plans, at, again.selection, again, i);
        TakenAgain(plans[i], StagesOf(i, at.buried, at.cleared, at.removed), again);
      }
    }
    if link in AllLinks(rest) {
      var q :| q in rest && link == LinkOf(q);
      var i := AgainFrom(plans, at, again.selection, again, q);
      TakenAgain(plans[i], StagesOf(i, at.buried, at.cleared, at.removed), again);
      assert StillTarget(again.selection, plans[i], at, i) && plans[i] in plans;
    }
  }

  lemma SameTaken(w: World, plans: seq<DeletePlan>, at: Spot, again: Request)
    requires at.Within(plans)
    requires again.selection.RunUids? ==> forall p :: p in plans ==> Harmless(w, p)
    ensures var rest := PlansAgain(plans, at, First(again.selection, plans, at), again);
            && AllDirs(plans[..at.removed]) + AllDirs(rest) == AllDirs(plans)
            && AllPlaces(plans[..at.cleared]) + AllPlaces(rest) == AllPlaces(plans)
            && w.links - AllLinks(plans[..at.cleared]) - AllLinks(rest) == w.links - AllLinks(plans)
  {
    var rest := PlansAgain(plans, at, First(again.selection, plans, at), again);
    forall d
      ensures d in AllDirs(plans[..at.removed]) + AllDirs(rest) <==> d in AllDirs(plans)
    {
      DirTaken(plans, at, again, d);
    }
    forall place
      ensures place in AllPlaces(plans[..at.cleared]) + AllPlaces(rest) <==> place in AllPlaces(plans)
    {
      PlaceTaken(plans, at, again, place);
    }
    forall link | link in w.links
      ensures link in AllLinks(plans[..at.cleared]) + AllLinks(rest) <==> link in AllLinks(plans)
    {
      LinkTaken(w, plans, at, again, link);
    }
  }

  // The lines they write between them

  lemma {:induction false} BuriedWriteNothing(plans: seq<DeletePlan>)
    requires forall k :: 0 <= k < |plans| ==> plans[k].alreadyTombstoned
    ensures NewLines(plans) == []
  {
    if plans != [] { BuriedWriteNothing(plans[1..]); }
  }

  lemma {:induction false} RestampedLines(
    plans: seq<DeletePlan>, rest: seq<DeletePlan>, again: Request, request: Request)
    requires |rest| == |plans|
    requires forall k :: 0 <= k < |plans| ==> Stamped(plans[k], request) && rest[k] == Restamp(plans[k], again)
    ensures SameLines(NewLines(rest), NewLines(plans), again, request)
  {
    if plans != [] {
      assert Stamped(plans[0], request) && rest[0] == Restamp(plans[0], again);
      RestampedLines(plans[1..], rest[1..], again, request);
    }
  }

  lemma LinesAgain(plans: seq<DeletePlan>, at: Spot, first: nat, again: Request, request: Request)
    requires at.Within(plans) && first <= at.buried && forall k :: 0 <= k < |plans| ==> Stamped(plans[k], request)
    ensures SameLines(NewLines(PlansAgain(plans, at, first, again)), NewLines(plans[at.buried..]), again, request)
  {
    var rest, m := PlansAgain(plans, at, first, again), at.buried - first;
    assert NewLines(rest) == NewLines(rest[..m]) + NewLines(rest[m..]) by { NewLinesAt(rest, m); }
    assert NewLines(rest[..m]) == [] by { BegunWriteNothing(plans, at, first, again); }
    assert NewLines(rest) == NewLines(rest[m..]);
    forall k | 0 <= k < |plans| - at.buried
      ensures rest[m..][k] == Restamp(plans[at.buried..][k], again)
    {
      assert rest[m + k] == AgainAt(plans, at, again, at.buried + k);
    }
    RestampedLines(plans[at.buried..], rest[m..], again, request);
  }

  lemma BegunWriteNothing(plans: seq<DeletePlan>, at: Spot, first: nat, again: Request)
    requires at.Within(plans) && first <= at.buried
    ensures NewLines(PlansAgain(plans, at, first, again)[..at.buried - first]) == []
  {
    var rest, m := PlansAgain(plans, at, first, again), at.buried - first;
    forall k | 0 <= k < m
      ensures rest[..m][k].alreadyTombstoned
    {
      assert rest[k] == AgainAt(plans, at, again, first + k);
    }
    BuriedWriteNothing(rest[..m]);
  }

  lemma SameLinesBehind(before: seq<Line>, a: seq<Line>, b: seq<Line>, again: Request, request: Request)
    requires SameLines(a, b, again, request)
    ensures SameLines(before + a, before + b, again, request)
  {
  }

  lemma NewLinesAt(plans: seq<DeletePlan>, m: nat)
    requires m <= |plans|
    ensures NewLines(plans) == NewLines(plans[..m]) + NewLines(plans[m..])
  {
    assert plans == plans[..m] + plans[m..];
    NewLinesInTwoParts(plans[..m], plans[m..]);
  }

  lemma WrittenBetweenThem(c: Command, at: Spot, again: Request)
    requires at.Within(c.plans) && forall k :: 0 <= k < |c.plans| ==> Stamped(c.plans[k], c.request)
    ensures var rest := PlansAgain(c.plans, at, First(again.selection, c.plans, at), again);
            SameLines(c.w.lines + NewLines(c.plans[..at.buried]) + NewLines(rest), c.w.lines + NewLines(c.plans), again,
                c.request)
  {
    var first := First(again.selection, c.plans, at);
    var begun, left := NewLines(c.plans[..at.buried]), NewLines(c.plans[at.buried..]);
    var rest := NewLines(PlansAgain(c.plans, at, first, again));
    assert SameLines(rest, left, again, c.request) by { LinesAgain(c.plans, at, first, again, c.request); }
    SameLinesBehind(c.w.lines + begun, rest, left, again, c.request);
    assert c.w.lines + NewLines(c.plans) == c.w.lines + begun + left by { NewLinesAt(c.plans, at.buried); }
  }

  /** Carried out in full, the plans made again end where the first plans would. */
  lemma EndsAlike(c: Command, at: Spot, again: Request)
    requires at.Within(c.plans) && (again.selection.RunUids? ==> AllHarmless(c))
    requires forall k :: 0 <= k < |c.plans| ==> Stamped(c.plans[k], c.request)
    ensures var rest := PlansAgain(c.plans, at, First(again.selection, c.plans, at), again);
            SameEnd(Reached(at.World(c.w, c.plans), rest, |rest|, |rest|, |rest|),
                    Reached(c.w, c.plans, |c.plans|, |c.plans|, |c.plans|), again, c.request)
  {
    var rest := PlansAgain(c.plans, at, First(again.selection, c.plans, at), again);
    assert rest[..|rest|] == rest && c.plans[..|c.plans|] == c.plans;
    DirsTwice(c.w.sources, AllDirs(c.plans[..at.removed]), AllDirs(rest));
    PlacesTwice(c.w.vault, AllPlaces(c.plans[..at.cleared]), AllPlaces(rest));
    SameTaken(c.w, c.plans, at, again);
    WrittenBetweenThem(c, at, again);
  }

  // Repeating works when nothing was left out

  lemma PreparedAgain(
    g: Grammar, repo: string, before: map<string, Tombstone>, after: map<string, Tombstone>, p: DeletePlan, passed: nat,
    again: Request)
    requires PreparedOne(g, repo, before, p) && !g.blank(again.reason)
    requires Existing(after, p.runUid) == if passed == 0 then Existing(before, p.runUid) else Some(p.tombstone)
    ensures PreparedOne(g, repo, after, PlanAgain(p, passed, again)) && PlanAgain(p, passed, again).runUid == p.runUid
  {
  }

  lemma AgainIsPrepared(g: Grammar, repo: string, c: Command, at: Spot, again: Request, i: nat)
    requires Planned(g, repo, c) && at.Within(c.plans) && Repeats(g, again, c.request) && i < |c.plans|
    ensures PreparedOne(g, repo, BuriedAll(c.tombstones, c.plans[..at.buried]), AgainAt(c.plans, at, again, i))
  {
    PlanFacts(g, repo, c, i);
    TombstoneReached(g, repo, c, at.buried, i);
    PreparedAgain(g, repo, c.tombstones, BuriedAll(c.tombstones, c.plans[..at.buried]), c.plans[i],
                  StagesOf(i, at.buried, at.cleared, at.removed), again);
  }

  lemma RestDiffers(plans: seq<DeletePlan>, at: Spot, first: nat, again: Request)
    requires first <= |plans| && forall i, j :: 0 <= i < j < |plans| ==> plans[i].runUid != plans[j].runUid
    ensures var rest := PlansAgain(plans, at, first, again);
            forall j, k :: 0 <= j < k < |rest| ==> rest[j].runUid != rest[k].runUid
  {
    forall j, k | 0 <= j < k < |plans| - first
      ensures PlansAgain(plans, at, first, again)[j].runUid != PlansAgain(plans, at, first, again)[k].runUid
    {
      PlansAgainAt(plans, at, first, again, j);
      PlansAgainAt(plans, at, first, again, k);
    }
  }

  lemma RestIsPreparedAll(g: Grammar, repo: string, c: Command, at: Spot, again: Request, first: nat)
    requires Planned(g, repo, c) && at.Within(c.plans) && Repeats(g, again, c.request) && first <= |c.plans|
    ensures PreparedAll(g, repo, BuriedAll(c.tombstones, c.plans[..at.buried]), PlansAgain(c.plans, at, first, again))
  {
    forall k | 0 <= k < |c.plans| - first
      ensures PreparedOne(g, repo, BuriedAll(c.tombstones, c.plans[..at.buried]),
          PlansAgain(c.plans, at, first, again)[k])
    {
      PlansAgainAt(c.plans, at, first, again, k);
      AgainIsPrepared(g, repo, c, at, again, first + k);
    }
    CommandIsPrepared(g, repo, c);
    RestDiffers(c.plans, at, first, again);
  }

  lemma RestIsPrepared(g: Grammar, repo: string, c: Command, at: Spot, again: Request)
    requires Planned(g, repo, c) && at.Within(c.plans) && Repeats(g, again, c.request)
    ensures Prepared(g, repo, at.World(c.w, c.plans).lines,
        PlansAgain(c.plans, at, First(again.selection, c.plans, at), again))
  {
    FileReached(g, repo, c, at.buried);
    RestIsPreparedAll(g, repo, c, at, again, First(again.selection, c.plans, at));
  }

  lemma {:induction false} OneUnderWay(stages: nat, n: nat)
    ensures Passed(stages, 1, n) <= Passed(stages, 3, n) + 1
    decreases n
  {
    if n > 0 {
      OneUnderWay(if stages > 3 then stages - 3 else 0, n - 1);
      assert stages <= 3 ==> Passed(0, 1, n - 1) == 0;
    }
  }

  /** How far so many stages get. */
  function SpotOf(stages: nat, plans: seq<DeletePlan>): (at: Spot)
    ensures at.Within(plans)
  {
    PassedInOrder(stages, |plans|);
    OneUnderWay(stages, |plans|);
    Spot(Passed(stages, 1, |plans|), Passed(stages, 2, |plans|), Passed(stages, 3, |plans|))
  }

  lemma WorldAt(g: Grammar, repo: string, c: Command, stages: nat)
    requires Planned(g, repo, c)
    ensures ExecuteAll(g, c.w, c.plans, stages) == SpotOf(stages, c.plans).World(c.w, c.plans)
  {
    CommandIsPrepared(g, repo, c);
    StagesReach(g, repo, c.w, c.plans, stages);
  }

  lemma AllStamped(g: Grammar, repo: string, c: Command)
    requires Planned(g, repo, c)
    ensures forall k :: 0 <= k < |c.plans| ==> Stamped(c.plans[k], c.request)
  {
    forall k | 0 <= k < |c.plans|
      ensures Stamped(c.plans[k], c.request)
    {
      PlanFacts(g, repo, c, k);
    }
  }

  /** Everything a command does. */
  function Done(g: Grammar, w: World, plans: seq<DeletePlan>): World {
    ExecuteAll(g, w, plans, 3 * |plans|)
  }

  /** A repetition after so many stages plans, and ends as the command would have. */
  ghost predicate RestartsAfter(
    g: Grammar, repo: string, w: World, request: Request, plans: seq<DeletePlan>, again: Request, stages: nat)
  {
    var left := ExecuteAll(g, w, plans, stages);
    && Plan(g, left, repo, again).Ok?
    && SameEnd(Done(g, left, Plan(g, left, repo, again).value), Done(g, w, plans), again, request)
  }

  lemma NothingLeftOutRestarts(g: Grammar, repo: string, c: Command, again: Request, stages: nat)
    requires Planned(g, repo, c) && AllAlone(g, c) && (again.selection.RunUids? ==> AllHarmless(c))
    requires again.selection == c.request.selection && Repeats(g, again, c.request)
    ensures RestartsAfter(g, repo, c.w, c.request, c.plans, again, stages)
  {
    var at := SpotOf(stages, c.plans);
    var left, rest := at.World(c.w, c.plans), PlansAgain(c.plans, at, First(again.selection, c.plans, at), again);
    WorldAt(g, repo, c, stages);
    PlanAgainIs(g, repo, c, at, again);
    RestIsPrepared(g, repo, c, at, again);
    AllStagesReach(g, repo, left, rest);
    CommandIsPrepared(g, repo, c);
    AllStagesReach(g, repo, c.w, c.plans);
    AllStamped(g, repo, c);
    EndsAlike(c, at, again);
  }

  // And only then

  lemma AllAt(g: Grammar, repo: string, c: Command)
    requires Planned(g, repo, c)
    ensures Done(g, c.w, c.plans) == Reached(c.w, c.plans, |c.plans|, |c.plans|, |c.plans|)
    ensures Done(g, c.w, c.plans).sources == WithoutDirs(c.w.sources, AllDirs(c.plans))
    ensures Done(g, c.w, c.plans).vault == WithoutPlaces(c.w.vault, AllPlaces(c.plans))
    ensures Done(g, c.w, c.plans).links == c.w.links - AllLinks(c.plans)
  {
    CommandIsPrepared(g, repo, c);
    AllStagesReach(g, repo, c.w, c.plans);
    assert c.plans[..|c.plans|] == c.plans;
  }

  lemma DirOfItsPlan(g: Grammar, repo: string, c: Command, i: nat, s: Source)
    requires Planned(g, repo, c) && i < |c.plans| && s in c.w.sources && Carries(s, c.uids[i]) &&
        s.dir in AllDirs(c.plans)
    ensures s.dir in DirsOf(c.plans[i])
  {
    assert c.plans[..|c.plans|] == c.plans;
    DirBelongsToItsRun(g, repo, c, |c.plans|, s);
    var k :| 0 <= k < |c.plans| && c.uids[k] == c.uids[i] && s.dir in DirsOf(c.plans[k]);
    DistinctUids(c, k, i);
  }

  lemma PlaceOfItsPlan(g: Grammar, repo: string, c: Command, i: nat, v: VaultDir)
    requires Planned(g, repo, c) && i < |c.plans| && v.name == c.uids[i] && PlaceOf(v) in AllPlaces(c.plans)
    ensures PlaceOf(v) in PlacesOf(c.plans[i])
  {
    assert c.plans[..|c.plans|] == c.plans;
    PlaceBelongsToItsRun(g, repo, c, |c.plans|, v);
    var k :| 0 <= k < |c.plans| && c.uids[k] == c.uids[i] && PlaceOf(v) in PlacesOf(c.plans[k]);
    DistinctUids(c, k, i);
  }

  /** Of a run's copies, a command leaves those its plan does not name. */
  lemma DoneLeaves(g: Grammar, repo: string, c: Command, i: nat)
    requires Planned(g, repo, c) && i < |c.plans|
    ensures forall s :: s in c.w.sources && Carries(s, c.uids[i]) ==>
              (s in Done(g, c.w, c.plans).sources <==> s.dir !in DirsOf(c.plans[i]))
    ensures forall v :: v in c.w.vault && v.name == c.uids[i] ==>
              (v in Done(g, c.w, c.plans).vault <==> PlaceOf(v) !in PlacesOf(c.plans[i]))
    ensures forall s :: s in Done(g, c.w, c.plans).sources ==> s in c.w.sources && s.dir !in DirsOf(c.plans[i])
    ensures forall v :: v in Done(g, c.w, c.plans).vault ==> v in c.w.vault && PlaceOf(v) !in PlacesOf(c.plans[i])
  {
    AllAt(g, repo, c);
    DirsLeft(c.w.sources, AllDirs(c.plans));
    PlacesLeft(c.w.vault, AllPlaces(c.plans));
    DoneTakes(g, repo, c, i);
    forall s | s in c.w.sources && Carries(s, c.uids[i])
      ensures s in Done(g, c.w, c.plans).sources || s.dir in DirsOf(c.plans[i])
    {
      if s.dir in AllDirs(c.plans) { DirOfItsPlan(g, repo, c, i, s); }
    }
    forall v | v in c.w.vault && v.name == c.uids[i]
      ensures v in Done(g, c.w, c.plans).vault || PlaceOf(v) in PlacesOf(c.plans[i])
    {
      if PlaceOf(v) in AllPlaces(c.plans) { PlaceOfItsPlan(g, repo, c, i, v); }
    }
  }

  lemma LinkOfItsPlan(g: Grammar, repo: string, c: Command, i: nat, link: Link)
    requires Planned(g, repo, c) && i < |c.plans| && link.uid == c.uids[i] && link in AllLinks(c.plans)
    ensures link == LinkOf(c.plans[i])
  {
    InAllLinks(c.plans, link);
    var k :| 0 <= k < |c.plans| && link == LinkOf(c.plans[k]);
    PlanFacts(g, repo, c, k);
    DistinctUids(c, k, i);
  }

  /** A command takes what its plans name away. */
  lemma DoneTakes(g: Grammar, repo: string, c: Command, i: nat)
    requires Planned(g, repo, c) && i < |c.plans|
    ensures forall s :: s in Done(g, c.w, c.plans).sources ==> s.dir !in DirsOf(c.plans[i])
    ensures forall v :: v in Done(g, c.w, c.plans).vault ==> PlaceOf(v) !in PlacesOf(c.plans[i])
    ensures LinkOf(c.plans[i]) !in Done(g, c.w, c.plans).links
  {
    AllAt(g, repo, c);
    assert c.plans[i] in c.plans;
    DirsLeft(c.w.sources, AllDirs(c.plans));
    PlacesLeft(c.w.vault, AllPlaces(c.plans));
    InAllLinks(c.plans, LinkOf(c.plans[i]));
    forall s | s in Done(g, c.w, c.plans).sources
      ensures s.dir !in DirsOf(c.plans[i])
    {
      InAllDirs(c.plans, s.dir);
    }
    forall v | v in Done(g, c.w, c.plans).vault
      ensures PlaceOf(v) !in PlacesOf(c.plans[i])
    {
      InAllPlaces(c.plans, PlaceOf(v));
    }
  }

  /** A whole command has been carried out, and carrying it out again changed nothing. */
  ghost predicate Settled(g: Grammar, repo: string, c: Command, second: Command) {
    && Planned(g, repo, c) && Planned(g, repo, second)
    && second.request.selection == c.request.selection && second.w == Done(g, c.w, c.plans)
    && Done(g, second.w, second.plans).sources == second.w.sources
    && Done(g, second.w, second.plans).vault == second.w.vault
    && Done(g, second.w, second.plans).links == second.w.links
  }

  /** A run planned again has nothing left to take. */
  lemma SettledTakesNothing(g: Grammar, repo: string, c: Command, second: Command, j: nat)
    requires Settled(g, repo, c, second) && j < |second.plans|
    ensures !AnyTaken(c.request.selection, second.w.sources, second.uids[j])
    ensures !AnyVaultTaken(g, c.request.selection, second.w.vault, second.uids[j])
    ensures LinkOf(second.plans[j]) !in second.w.links
  {
    PlanFacts(g, repo, second, j);
    DoneTakes(g, repo, second, j);
  }

  lemma IsTargetAgain(g: Grammar, repo: string, c: Command, second: Command, i: nat) returns (j: nat)
    requires Settled(g, repo, c, second) && i < |c.plans|
    requires c.request.selection.RunUids? || AnyStatus(c.request.selection, second.w.sources, c.uids[i])
    ensures j < |second.plans| && second.uids[j] == c.uids[i]
  {
    var uid, selection := c.uids[i], c.request.selection;
    PlanFacts(g, repo, c, i);
    assert uid in KeySet(c.uids);
    AllAt(g, repo, c);
    ScanWithout(g, c.w, second.w, repo, selection, AllDirs(c.plans), AllPlaces(c.plans));
    ScanSays(g, second.w, repo, selection, uid);
    assert Weaker(Get(second.found, uid), Get(c.found, uid));
    assert uid in Targets(selection, second.found);
    assert uid in KeySet(second.uids);
    j :| 0 <= j < |second.uids| && second.uids[j] == uid;
  }

  lemma SettledIsAlone(g: Grammar, repo: string, c: Command, second: Command, i: nat)
    requires Settled(g, repo, c, second) && i < |c.plans|
    ensures Alone(g, c.request.selection, c.w, c.plans[i])
  {
    var p, uid, selection := c.plans[i], c.uids[i], c.request.selection;
    PlanFacts(g, repo, c, i);
    DoneLeaves(g, repo, c, i);
    forall s | s in c.w.sources && TakesAgain(selection, s, uid)
      ensures s.dir in DirsOf(p)
    {
      if s in second.w.sources {
        var j := IsTargetAgain(g, repo, c, second, i);
        SettledTakesNothing(g, repo, c, second, j);
      }
    }
    forall v | v in c.w.vault && TakesVault(g, selection, v, uid)
      ensures PlaceOf(v) in PlacesOf(p)
    {
      if selection.RunUids? && v in second.w.vault {
        var j := IsTargetAgain(g, repo, c, second, i);
        SettledTakesNothing(g, repo, c, second, j);
      }
    }
  }

  lemma SettledIsHarmless(g: Grammar, repo: string, c: Command, second: Command, i: nat)
    requires Settled(g, repo, c, second) && i < |c.plans| && c.request.selection.RunUids?
    ensures Harmless(c.w, c.plans[i])
  {
    var p, uid, n := c.plans[i], c.uids[i], |c.plans|;
    var at := Spot(n, n, n);
    SettledIsAlone(g, repo, c, second, i);
    AllAt(g, repo, c);
    var j := IsTargetAgain(g, repo, c, second, i);
    ItemAt(g, repo, c, at, i, c.request.selection, c.found);
    FileReached(g, repo, c, n);
    TombstoneReached(g, repo, c, n, i);
    PlanFacts(g, repo, c, i);
    NothingAgain(repo, second.request, uid, None, p);
    assert second.plans[j] == FromTombstone(p);
    SettledTakesNothing(g, repo, c, second, j);
    if TombstoneLink(p) in AllLinks(c.plans) { LinkOfItsPlan(g, repo, c, i, TombstoneLink(p)); }
  }

  // The equivalence

  /** No run is taken twice: what the selection takes of it is one source directory and one vault directory. */
  ghost predicate TakenOnce(g: Grammar, selection: Selection, w: World, uid: string) {
    && (forall s, t | s in w.sources && t in w.sources ::
          TakesAgain(selection, s, uid) && TakesAgain(selection, t, uid) ==> s.dir == t.dir)
    && (forall u, v | u in w.vault && v in w.vault ::
          TakesVault(g, selection, u, uid) && TakesVault(g, selection, v, uid) ==> u.experiment == v.experiment)
  }

  lemma FoundOnceIsAlone(g: Grammar, selection: Selection, w: World, item: Found, p: DeletePlan, uid: string)
    requires Says(g, selection, w, item, uid) && Follows(p, uid, item, selection) && TakenOnce(g, selection, w, uid)
    ensures Alone(g, selection, w, p)
  {
    forall s | s in w.sources && TakesAgain(selection, s, uid)
      ensures s.dir in DirsOf(p)
    {
      var t :| t in w.sources && Takes(selection, t, uid) && IsSourceOf(t, item);
      assert TakesAgain(selection, t, uid);
    }
    forall v | v in w.vault && TakesVault(g, selection, v, uid)
      ensures PlaceOf(v) in PlacesOf(p)
    {
      var u :| u in w.vault && TakesVault(g, selection, u, uid) && PlaceOf(u) == item.vault.value;
    }
  }

  lemma AloneIffTakenOnce(g: Grammar, repo: string, c: Command, i: nat)
    requires Planned(g, repo, c) && i < |c.plans|
    ensures Alone(g, c.request.selection, c.w, c.plans[i]) <==> TakenOnce(g, c.request.selection, c.w, c.uids[i])
  {
    PlanFacts(g, repo, c, i);
    if TakenOnce(g, c.request.selection, c.w, c.uids[i]) {
      FoundOnceIsAlone(g, c.request.selection, c.w, Get(c.found, c.uids[i]), c.plans[i], c.uids[i]);
    }
  }

  /** What a caller can look for before the command: a run taken twice, or a tombstone naming another's link. */
  ghost predicate NothingLeftOut(g: Grammar, selection: Selection, w: World, plans: seq<DeletePlan>) {
    forall p :: p in plans ==> TakenOnce(g, selection, w, p.runUid) && (selection.RunUids? ==> Harmless(w, p))
  }

  lemma RestartingSettles(g: Grammar, repo: string, c: Command, again: Request) returns (second: Command)
    requires Planned(g, repo, c) && again.selection == c.request.selection
    requires RestartsAfter(g, repo, c.w, c.request, c.plans, again, 3 * |c.plans|)
    ensures Settled(g, repo, c, second)
  {
    var left := Done(g, c.w, c.plans);
    AllAt(g, repo, c);
    DirsLeft(c.w.sources, AllDirs(c.plans));
    second := PlanIsPlanned(g, left, repo, again, Plan(g, left, repo, again).value);
  }

  /**
   A command of either kind can be stopped after any number of stages, planned
   again by the same selection and carried out to the state it would have
   reached, if and only if it leaves nothing out.
  */
  lemma RestartsIffNothingLeftOut(
    g: Grammar, repo: string, w: World, request: Request, plans: seq<DeletePlan>, again: Request)
    requires OneRunEach(w.sources) && Plan(g, w, repo, request) == Ok(plans)
    requires again.selection == request.selection && Repeats(g, again, request)
    ensures (forall stages: nat :: RestartsAfter(g, repo, w, request, plans, again, stages))
       <==> NothingLeftOut(g, request.selection, w, plans)
  {
    var c := PlanIsPlanned(g, w, repo, request, plans);
    if NothingLeftOut(g, request.selection, w, plans) {
      forall p | p in plans
        ensures Alone(g, request.selection, w, p)
      {
        var i :| 0 <= i < |plans| && plans[i] == p;
        PlanFacts(g, repo, c, i);
        AloneIffTakenOnce(g, repo, c, i);
      }
      forall stages: nat
        ensures RestartsAfter(g, repo, w, request, plans, again, stages)
      {
        NothingLeftOutRestarts(g, repo, c, again, stages);
      }
    }
    if RestartsAfter(g, repo, w, request, plans, again, 3 * |plans|) {
      var second := RestartingSettles(g, repo, c, again);
      forall p | p in plans
        ensures TakenOnce(g, request.selection, w, p.runUid) && (request.selection.RunUids? ==> Harmless(w, p))
      {
        var i :| 0 <= i < |plans| && plans[i] == p;
        PlanFacts(g, repo, c, i);
        SettledIsAlone(g, repo, c, second, i);
        AloneIffTakenOnce(g, repo, c, i);
        if request.selection.RunUids? { SettledIsHarmless(g, repo, c, second, i); }
      }
    }
  }
}
