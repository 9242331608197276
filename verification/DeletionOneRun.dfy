/**
 One run of a command: when it is gone for good, and when it can be planned
 again by its uid, whichever way the command had selected it.
*/
module DeletionOneRun {
  import opened Wrappers
  import opened TextOrder
  import opened Deletion
  import opened DeletionScan
  import opened DeletionProgress
  import opened DeletionAgain
  import opened DeletionRestart
  import opened DeletionRepeat

  /** The selection takes every copy of the run, and there is one of each kind at most. */
  ghost predicate WhollyTaken(g: Grammar, selection: Selection, w: World, uid: string) {
    && (forall s, t :: s in w.sources && t in w.sources && Carries(s, uid) && Carries(t, uid) ==> s.dir == t.dir)
    && (forall u, v :: u in w.vault && v in w.vault && u.name == uid && v.name == uid ==> u.experiment == v.experiment)
    && (forall s :: s in w.sources && Carries(s, uid) ==> Takes(selection, s, uid))
    && (forall v :: v in w.vault && v.name == uid ==> TakesVault(g, selection, v, uid))
  }

  /** Every copy is one that the plan names. */
  ghost predicate WhollyPlanned(w: World, p: DeletePlan, uid: string) {
    && (forall s :: s in w.sources && Carries(s, uid) ==> s.dir in DirsOf(p))
    && (forall v :: v in w.vault && v.name == uid ==> PlaceOf(v) in PlacesOf(p))
  }

  lemma PlannedIffTaken(g: Grammar, selection: Selection, w: World, item: Found, p: DeletePlan, uid: string)
    requires Says(g, selection, w, item, uid) && Follows(p, uid, item, selection) && OneRunEach(w.sources)
    ensures WhollyPlanned(w, p, uid) <==> WhollyTaken(g, selection, w, uid)
  {
    if WhollyPlanned(w, p, uid) {
      forall s | s in w.sources && Carries(s, uid)
        ensures Takes(selection, s, uid)
      {
        var t :| t in w.sources && Takes(selection, t, uid) && IsSourceOf(t, item);
        assert s == t;
      }
      forall v | v in w.vault && v.name == uid
        ensures TakesVault(g, selection, v, uid)
      {
        var u :| u in w.vault && TakesVault(g, selection, u, uid) && PlaceOf(u) == item.vault.value;
      }
    }
    if WhollyTaken(g, selection, w, uid) {
      forall s | s in w.sources && Carries(s, uid)
        ensures s.dir in DirsOf(p)
      {
        var t :| t in w.sources && Takes(selection, t, uid) && IsSourceOf(t, item);
      }
      forall v | v in w.vault && v.name == uid
        ensures PlaceOf(v) in PlacesOf(p)
      {
        var u :| u in w.vault && TakesVault(g, selection, u, uid) && PlaceOf(u) == item.vault.value;
      }
    }
  }

  lemma GoneIffPlanned(g: Grammar, repo: string, c: Command, i: nat)
    requires Planned(g, repo, c) && i < |c.plans|
    ensures var final := Done(g, c.w, c.plans);
            !AnyNamed(final.vault, c.uids[i]) && !AnyCarries(final.sources, c.uids[i])
            <==> WhollyPlanned(c.w, c.plans[i], c.uids[i])
  {
    DoneLeaves(g, repo, c, i);
  }

  /**
   A command of either kind leaves no copy of a run it plans for exactly when it takes every copy,
   one of each kind.
  */
  lemma GoneIffWhollyTaken(g: Grammar, w: World, repo: string, request: Request, plans: seq<DeletePlan>, p: DeletePlan)
    requires OneRunEach(w.sources) && Plan(g, w, repo, request) == Ok(plans) && p in plans
    ensures var final := Done(g, w, plans);
            !AnyNamed(final.vault, p.runUid) && !AnyCarries(final.sources, p.runUid)
            <==> WhollyTaken(g, request.selection, w, p.runUid)
  {
    var c := PlanIsPlanned(g, w, repo, request, plans);
    var i :| 0 <= i < |plans| && plans[i] == p;
    PlanFacts(g, repo, c, i);
    GoneIffPlanned(g, repo, c, i);
    PlannedIffTaken(g, request.selection, w, Get(c.found, p.runUid), p, p.runUid);
  }

  // Planning the run again by its uid

  /** No directory without `run.json` has a status that names the run. */
  ghost predicate NoLegacyName(w: World, uid: string) {
    forall s :: s in w.sources && s.content.Legacy? ==> !SelectsLegacy(Only(uid), s.content)
  }

  lemma SortedOne(uid: string)
    ensures SortedKeys({uid}) == [uid]
  {
    assert KeySet([uid]) == {uid};
    AscendingUnique([uid], SortedKeys({uid}));
  }

  lemma PlanOfOne(
    g: Grammar, w: World, repo: string, again: Request, tombstones: map<string, Tombstone>, found: FoundMap,
    uid: string, q: DeletePlan)
    requires ValidRequest(g, repo, again) && again.selection == Only(uid)
    requires Read(g, repo, w.lines) == Ok(tombstones) && Scan(g, w, repo, Only(uid)) == Ok(found)
    requires PlansFor(w, repo, again, found, tombstones, uid, q)
    ensures Plan(g, w, repo, again) == Ok([q])
  {
    SortedOne(uid);
    assert Targets(Only(uid), found) == {uid};
    PlanFrom(g, w, repo, again, tombstones, found, [uid], [q]);
  }

  /** What finishing one plan takes from a repository that some stages have been carried out in. */
  function Without(w: World, p: DeletePlan, lines: seq<Line>): World {
    World(WithoutDirs(w.sources, DirsOf(p)), WithoutPlaces(w.vault, PlacesOf(p)), w.links - {LinkOf(p)}, lines)
  }

  lemma DoneOne(g: Grammar, repo: string, w: World, p: DeletePlan)
    requires Read(g, repo, w.lines).Ok? && p.tombstone.repoId == repo
    ensures Done(g, w, [p])
         == Without(w, p, if p.alreadyTombstoned || p.runUid in Read(g, repo, w.lines).value then w.lines
             else w.lines + [Recorded(p.tombstone)])
  {
    assert ExecuteAll(g, w, [p], 3) == Execute(g, w, p, 3).value;
  }

  lemma AlreadyGone(w: World, plans: seq<DeletePlan>, at: Spot, i: nat)
    requires at.Within(plans) && i < |plans|
    ensures i < at.removed ==> WithoutDirs(at.World(w, plans).sources, DirsOf(plans[i])) == at.World(w, plans).sources
    ensures i < at.cleared ==> WithoutPlaces(at.World(w, plans).vault, PlacesOf(plans[i])) == at.World(w, plans).vault
    ensures i < at.cleared ==> LinkOf(plans[i]) !in at.World(w, plans).links
  {
    if i < at.removed {
      var begun := plans[..at.removed];
      assert begun[i] in begun;
      forall d | d in DirsOf(plans[i])
        ensures d in AllDirs(begun)
      {
        InAllDirs(begun, d);
      }
      DirsTwice(w.sources, AllDirs(begun), DirsOf(plans[i]));
      assert AllDirs(begun) + DirsOf(plans[i]) == AllDirs(begun);
    }
    if i < at.cleared {
      var begun := plans[..at.cleared];
      assert begun[i] in begun;
      forall place | place in PlacesOf(plans[i])
        ensures place in AllPlaces(begun)
      {
        InAllPlaces(begun, place);
      }
      PlacesTwice(w.vault, AllPlaces(begun), PlacesOf(plans[i]));
      assert AllPlaces(begun) + PlacesOf(plans[i]) == AllPlaces(begun);
      InAllLinks(begun, LinkOf(plans[i]));
    }
  }

  /** Finishing the plan made again takes what finishing the first takes. */
  lemma SameShare(w: World, plans: seq<DeletePlan>, at: Spot, i: nat, again: Request, lines: seq<Line>)
    requires at.Within(plans) && i < |plans| && Harmless(w, plans[i])
    ensures Without(at.World(w, plans), AgainAt(plans, at, again, i), lines) ==
        Without(at.World(w, plans), plans[i], lines)
  {
    var left, p, q := at.World(w, plans), plans[i], AgainAt(plans, at, again, i);
    AlreadyGone(w, plans, at, i);
    NothingRemoved(left);
    TakenAgain(p, StagesOf(i, at.buried, at.cleared, at.removed), again);
    assert left.links - {LinkOf(q)} == left.links - {LinkOf(p)};
  }

  /** A later request for the run by its uid plans, and finishes what the command began of it. */
  ghost predicate RestartsOne(
    g: Grammar, repo: string, w: World, request: Request, plans: seq<DeletePlan>, p: DeletePlan, again: Request,
    stages: nat)
  {
    var left := ExecuteAll(g, w, plans, stages);
    && Plan(g, left, repo, again).Ok?
    && SameEnd(Done(g, left, Plan(g, left, repo, again).value), Done(g, left, [p]), again, request)
  }

  lemma OneRunAgain(g: Grammar, repo: string, c: Command, i: nat, again: Request, at: Spot)
    requires Planned(g, repo, c) && i < |c.plans| && at.Within(c.plans)
    requires again.selection == Only(c.uids[i]) && Repeats(g, again, c.request)
    requires WhollyTaken(g, c.request.selection, c.w, c.uids[i]) && NoLegacyName(c.w, c.uids[i])
    ensures Plan(g, at.World(c.w, c.plans), repo, again) == Ok([AgainAt(c.plans, at, again, i)])
  {
    var uid, left := c.uids[i], at.World(c.w, c.plans);
    PlanFacts(g, repo, c, i);
    NarrowToOne(g, c.w, repo, c.request.selection, uid);
    var all := Scan(g, c.w, repo, Only(uid)).value;
    PlannedIffTaken(g, c.request.selection, c.w, Get(c.found, uid), c.plans[i], uid);
    assert Alone(g, Only(uid), c.w, c.plans[i]);
    ItemAt(g, repo, c, at, i, Only(uid), all);
    var found := Scan(g, left, repo, Only(uid)).value;
    PlanUidAt(g, repo, c, at, i, again, all, found);
    FileReached(g, repo, c, at.buried);
    PlanOfOne(g, left, repo, again, BuriedAll(c.tombstones, c.plans[..at.buried]), found, uid,
        AgainAt(c.plans, at, again, i));
  }

  /** In a repository that some stages have been carried out in, both plans finish alike. */
  lemma FinishAlike(
    g: Grammar, repo: string, left: World, tombstones: map<string, Tombstone>, p: DeletePlan, passed: nat,
    again: Request, request: Request)
    requires Read(g, repo, left.lines) == Ok(tombstones) && p.tombstone.repoId == repo && Stamped(p, request)
    requires p.runUid in tombstones <==> p.alreadyTombstoned || passed >= 1
    requires Without(left, PlanAgain(p, passed, again), left.lines) == Without(left, p, left.lines)
    ensures SameEnd(Done(g, left, [PlanAgain(p, passed, again)]), Done(g, left, [p]), again, request)
  {
    DoneOne(g, repo, left, p);
    DoneOne(g, repo, left, PlanAgain(p, passed, again));
  }

  lemma BuriedIff(g: Grammar, repo: string, c: Command, i: nat, at: Spot)
    requires Planned(g, repo, c) && i < |c.plans| && at.Within(c.plans)
    ensures c.uids[i] in BuriedAll(c.tombstones, c.plans[..at.buried]) <==>
            c.plans[i].alreadyTombstoned || StagesOf(i, at.buried, at.cleared, at.removed) >= 1
    ensures c.plans[i].tombstone.repoId == repo && Stamped(c.plans[i], c.request) && c.plans[i].runUid == c.uids[i]
  {
    PlanFacts(g, repo, c, i);
    TombstoneReached(g, repo, c, at.buried, i);
  }

  lemma WhollyTakenRestarts(g: Grammar, repo: string, c: Command, i: nat, again: Request, stages: nat)
    requires Planned(g, repo, c) && i < |c.plans|
    requires again.selection == Only(c.uids[i]) && Repeats(g, again, c.request)
    requires WhollyTaken(g, c.request.selection, c.w, c.uids[i]) && NoLegacyName(c.w, c.uids[i]) &&
        Harmless(c.w, c.plans[i])
    ensures RestartsOne(g, repo, c.w, c.request, c.plans, c.plans[i], again, stages)
  {
    var at := SpotOf(stages, c.plans);
    var left, passed := at.World(c.w, c.plans), StagesOf(i, at.buried, at.cleared, at.removed);
    assert SameEnd(Done(g, left, [PlanAgain(c.plans[i], passed, again)]), Done(g, left, [c.plans[i]]), again,
        c.request) by {
      FileReached(g, repo, c, at.buried);
      BuriedIff(g, repo, c, i, at);
      SameShare(c.w, c.plans, at, i, again, left.lines);
      FinishAlike(g, repo, left, BuriedAll(c.tombstones, c.plans[..at.buried]), c.plans[i], passed, again, c.request);
    }
    assert Plan(g, left, repo, again) == Ok([PlanAgain(c.plans[i], passed, again)]) by {
      OneRunAgain(g, repo, c, i, again, at);
    }
    WorldAt(g, repo, c, stages);
  }

  // And only then

  /** A whole command has been carried out, and so has a second one for the run by its uid, changing nothing. */
  ghost predicate OneSettled(g: Grammar, repo: string, c: Command, i: nat, second: Command) {
    && Planned(g, repo, c) && i < |c.plans| && Planned(g, repo, second)
    && second.request.selection == Only(c.uids[i]) && second.w == Done(g, c.w, c.plans)
    && Done(g, second.w, second.plans).sources == second.w.sources
    && Done(g, second.w, second.plans).vault == second.w.vault
    && Done(g, second.w, second.plans).links == second.w.links
  }

  lemma OneSettledPlan(g: Grammar, repo: string, c: Command, i: nat, second: Command)
    requires OneSettled(g, repo, c, i, second)
    ensures |second.plans| == 1 && second.uids == [c.uids[i]]
  {
    SortedOne(c.uids[i]);
    assert Targets(Only(c.uids[i]), second.found) == {c.uids[i]};
  }

  lemma OneSettledIsGone(g: Grammar, repo: string, c: Command, i: nat, second: Command)
    requires Sound(g) && OneSettled(g, repo, c, i, second)
    ensures !AnyNamed(second.w.vault, c.uids[i]) && !AnyCarries(second.w.sources, c.uids[i])
    ensures |second.plans| == 1 && LinkOf(second.plans[0]) !in second.w.links
  {
    OneSettledPlan(g, repo, c, i, second);
    PlanFacts(g, repo, second, 0);
    DoneTakes(g, repo, second, 0);
    assert !AnyTaken(Only(c.uids[i]), second.w.sources, c.uids[i]);
    assert !AnyVaultTaken(g, Only(c.uids[i]), second.w.vault, c.uids[i]);
    forall s | s in second.w.sources
      ensures !Carries(s, c.uids[i])
    {
      assert Takes(Only(c.uids[i]), s, c.uids[i]) <==> Carries(s, c.uids[i]);
    }
    forall v | v in second.w.vault
      ensures v.name != c.uids[i]
    {
      assert TakesVault(g, Only(c.uids[i]), v, c.uids[i]) <==> v.name == c.uids[i];
    }
  }

  lemma OneSettledHasNoLegacy(g: Grammar, repo: string, c: Command, i: nat, second: Command)
    requires OneSettled(g, repo, c, i, second)
    ensures NoLegacyName(c.w, c.uids[i])
  {
    NoSelectedLegacy(g, repo, Only(c.uids[i]), second.w.sources);
    AllAt(g, repo, c);
    DirsLeft(c.w.sources, AllDirs(c.plans));
    forall s | s in c.w.sources && s.content.Legacy?
      ensures s in second.w.sources
    {
      if s.dir in AllDirs(c.plans) { LegacyIsNobodys(g, repo, c, s); }
    }
  }

  lemma LegacyIsNobodys(g: Grammar, repo: string, c: Command, s: Source)
    requires Planned(g, repo, c) && s in c.w.sources && s.content.Legacy?
    ensures s.dir !in AllDirs(c.plans)
  {
    InAllDirs(c.plans, s.dir);
    forall p | p in c.plans
      ensures s.dir !in DirsOf(p)
    {
      var k :| 0 <= k < |c.plans| && c.plans[k] == p;
      PlanFacts(g, repo, c, k);
    }
  }

  lemma OneSettledIsHarmless(g: Grammar, repo: string, c: Command, i: nat, second: Command)
    requires Sound(g) && OneSettled(g, repo, c, i, second)
    ensures Harmless(c.w, c.plans[i])
  {
    var p, uid, n := c.plans[i], c.uids[i], |c.plans|;
    OneSettledIsGone(g, repo, c, i, second);
    OneSettledPlan(g, repo, c, i, second);
    AllAt(g, repo, c);
    assert c.plans[..n] == c.plans;
    FileReached(g, repo, c, n);
    TombstoneReached(g, repo, c, n, i);
    PlanFacts(g, repo, c, i);
    ScanSays(g, second.w, repo, Only(uid), uid);
    assert Get(second.found, uid) == NOTHING;
    NothingAgain(repo, second.request, uid, None, p);
    assert PlansFor(second.w, repo, second.request, second.found, second.tombstones, second.uids[0], second.plans[0]);
    assert second.plans[0] == FromTombstone(p);
    if TombstoneLink(p) in AllLinks(c.plans) { LinkOfItsPlan(g, repo, c, i, TombstoneLink(p)); }
  }

  lemma DoneTwiceIsDone(g: Grammar, repo: string, c: Command, i: nat)
    requires Planned(g, repo, c) && i < |c.plans|
    ensures var left := Done(g, c.w, c.plans); var more := Done(g, left, [c.plans[i]]);
            more.sources == left.sources && more.vault == left.vault && more.links == left.links
  {
    var left, n := Done(g, c.w, c.plans), |c.plans|;
    AllAt(g, repo, c);
    PlanFacts(g, repo, c, i);
    assert Read(g, repo, left.lines).Ok? by { FileReached(g, repo, c, n); }
    DoneOne(g, repo, left, c.plans[i]);
    AlreadyGone(c.w, c.plans, Spot(n, n, n), i);
    assert left.links - {LinkOf(c.plans[i])} == left.links;
  }

  lemma RestartingOneSettles(g: Grammar, repo: string, c: Command, i: nat, again: Request) returns (second: Command)
    requires Planned(g, repo, c) && i < |c.plans| && again.selection == Only(c.uids[i])
    requires RestartsOne(g, repo, c.w, c.request, c.plans, c.plans[i], again, 3 * |c.plans|)
    ensures OneSettled(g, repo, c, i, second)
  {
    var left := Done(g, c.w, c.plans);
    assert OneRunEach(left.sources) by {
      AllAt(g, repo, c);
      DirsLeft(c.w.sources, AllDirs(c.plans));
    }
    second := PlanIsPlanned(g, left, repo, again, Plan(g, left, repo, again).value);
    DoneTwiceIsDone(g, repo, c, i);
  }

  /**
   After any number of stages of a command of either kind, one of its runs can
   be planned again by its uid and finished, if and only if the command takes
   every copy of it, one of each kind, no directory without `run.json` names
   it, and its tombstone names no other link.
  */
  lemma RestartsOneIff(
    g: Grammar, repo: string, w: World, request: Request, plans: seq<DeletePlan>, p: DeletePlan, again: Request)
    requires Sound(g) && OneRunEach(w.sources) && Plan(g, w, repo, request) == Ok(plans) && p in plans
    requires again.selection == Only(p.runUid) && Repeats(g, again, request)
    ensures (forall stages: nat :: RestartsOne(g, repo, w, request, plans, p, again, stages))
       <==> WhollyTaken(g, request.selection, w, p.runUid) && NoLegacyName(w, p.runUid) && Harmless(w, p)
  {
    var c := PlanIsPlanned(g, w, repo, request, plans);
    var i :| 0 <= i < |plans| && plans[i] == p;
    PlanFacts(g, repo, c, i);
    if WhollyTaken(g, request.selection, w, p.runUid) && NoLegacyName(w, p.runUid) && Harmless(w, p) {
      forall stages: nat
        ensures RestartsOne(g, repo, w, request, plans, p, again, stages)
      {
        WhollyTakenRestarts(g, repo, c, i, again, stages);
      }
    }
    if RestartsOne(g, repo, w, request, plans, p, again, 3 * |plans|) {
      var second := RestartingOneSettles(g, repo, c, i, again);
      OneSettledIsGone(g, repo, c, i, second);
      GoneIffWhollyTaken(g, w, repo, request, plans, p);
      OneSettledHasNoLegacy(g, repo, c, i, second);
      OneSettledIsHarmless(g, repo, c, i, second);
    }
  }

  // A copy that cannot be read

  lemma {:induction false} UnreadableCopyStopsTheScan(
    g: Grammar, repo: string, selection: Selection, found: FoundMap, vault: seq<VaultDir>, v: VaultDir)
    requires v in vault && v.meta.None? && TakesVault(g, selection, v, v.name)
    ensures ScanVault(g, repo, selection, found, vault).Err?
  {
    var last := |vault| - 1;
    assert vault == vault[..last] + [vault[last]];
    if v in vault[..last] { UnreadableCopyStopsTheScan(g, repo, selection, found, vault[..last], v); }
  }

  /**
   A sync killed before its receipt leaves a copy that cannot be read. Until it
   is repaired, no request that selects the run can be planned.
  */
  lemma UnreadableCopyBlocksDeletion(g: Grammar, w: World, repo: string, request: Request, v: VaultDir)
    requires v in w.vault && v.meta.None? && TakesVault(g, request.selection, v, v.name)
    ensures Plan(g, w, repo, request).Err?
  {
    var found := ScanSources(g, repo, request.selection, w.sources);
    if found.Ok? { UnreadableCopyStopsTheScan(g, repo, request.selection, found.value, w.vault, v); }
  }
}
