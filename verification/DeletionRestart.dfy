/**
 Repeating a deletion that stopped. After any number of stages of a command,
 for either way of selecting runs, the same request plans again, and carrying
 it out in full ends where the command would have ended: exactly when nothing
 that the selection takes was left out of the first plans.
*/
module DeletionRestart {
  import opened Wrappers
  import opened TextOrder
  import opened Deletion
  import opened DeletionScan
  import opened DeletionProgress
  import opened DeletionAgain

  /** How many plans of a command have passed each stage; one plan at most is under way. */
  datatype Spot = Spot(buried: nat, cleared: nat, removed: nat) {
    predicate Within(plans: seq<DeletePlan>) {
      removed <= cleared <= buried <= |plans| && buried <= removed + 1
    }

    function World(w: World, plans: seq<DeletePlan>): World
      requires Within(plans)
    {
      Reached(w, plans, buried, cleared, removed)
    }
  }

  /** The plan covers every copy of its run that the selection would take again. */
  ghost predicate Alone(g: Grammar, selection: Selection, w: World, p: DeletePlan) {
    && (forall s :: s in w.sources && TakesAgain(selection, s, p.runUid) ==> s.dir in DirsOf(p))
    && (forall v :: v in w.vault && TakesVault(g, selection, v, p.runUid) ==> PlaceOf(v) in PlacesOf(p))
  }

  // What is found again

  lemma NoVaultLeft(g: Grammar, selection: Selection, c: Command, at: Spot, i: nat)
    requires at.Within(c.plans) && i < at.cleared && Alone(g, selection, c.w, c.plans[i])
    ensures !AnyVaultTaken(g, selection, at.World(c.w, c.plans).vault, c.plans[i].runUid)
  {
    var begun := c.plans[..at.cleared];
    PlacesLeft(c.w.vault, AllPlaces(begun));
    assert begun[i] in begun;
    if v :| v in at.World(c.w, c.plans).vault && TakesVault(g, selection, v, c.plans[i].runUid) {
      InAllPlaces(begun, PlaceOf(v));
    }
  }

  lemma NoSourceLeft(g: Grammar, selection: Selection, c: Command, at: Spot, i: nat)
    requires at.Within(c.plans) && i < at.removed && Alone(g, selection, c.w, c.plans[i])
    ensures var left := at.World(c.w, c.plans).sources;
            if selection.RunUids? then !AnyTaken(selection, left, c.plans[i].runUid)
            else !AnyStatus(selection, left, c.plans[i].runUid)
  {
    var begun, left := c.plans[..at.removed], at.World(c.w, c.plans).sources;
    DirsLeft(c.w.sources, AllDirs(begun));
    assert begun[i] in begun;
    if s :| s in left && TakesAgain(selection, s, c.plans[i].runUid) {
      InAllDirs(begun, s.dir);
    }
  }

  /** What is found of run `i` of a command that got as far as `at`, of what was found at first. */
  ghost predicate LeftOf(selection: Selection, item: Found, left: Found, at: Spot, i: nat) {
    if i >= at.cleared then left == item
    else
      && Weaker(left, item) && left.vault.None?
      && if i >= at.removed then
           && left.source == item.source && left.unfinished == item.unfinished
           && (left.source.None? ==> left == NOTHING)
           && (left.source.Some? ==> left.meta.Some? && (!left.unfinished ==> left.status.Some?))
         else if selection.RunUids? then left == NOTHING
         else left.status.None?
  }

  lemma ItemAt(g: Grammar, repo: string, c: Command, at: Spot, i: nat, selection: Selection, all: FoundMap)
    requires Planned(g, repo, c) && at.Within(c.plans) && i < |c.plans|
    requires Scan(g, c.w, repo, selection) == Ok(all) && (i < at.cleared ==> Alone(g, selection, c.w, c.plans[i]))
    ensures Scan(g, at.World(c.w, c.plans), repo, selection).Ok?
    ensures LeftOf(selection, Get(all, c.uids[i]),
        Get(Scan(g, at.World(c.w, c.plans), repo, selection).value, c.uids[i]), at, i)
  {
    var w', uid := at.World(c.w, c.plans), c.uids[i];
    var dirs, places := AllDirs(c.plans[..at.removed]), AllPlaces(c.plans[..at.cleared]);
    PlanFacts(g, repo, c, i);
    ScanWithout(g, c.w, w', repo, selection, dirs, places);
    ScanSays(g, w', repo, selection, uid);
    assert Weaker(Get(Scan(g, w', repo, selection).value, uid), Get(all, uid));
    if i >= at.removed {
      LaterLosesNothing(g, repo, c, at.removed, i);
      if i >= at.cleared { LaterLosesNothing(g, repo, c, at.cleared, i); }
      ScanKeeps(g, c.w, w', repo, selection, dirs, places, uid);
    } else {
      NoSourceLeft(g, selection, c, at, i);
    }
    if i < at.cleared { NoVaultLeft(g, selection, c, at, i); }
  }

  /** The run is planned again; only a run that a failed-experiment selection no longer finds is not. */
  predicate StillTarget(selection: Selection, p: DeletePlan, at: Spot, i: nat) {
    selection.RunUids? || i >= at.cleared || (i >= at.removed && p.sourceDir.Some?)
  }

  /** The plan that follows from what is left of a run. */
  lemma PlanOneAt(
    g: Grammar, repo: string, request: Request, again: Request, uid: string, item: Found, left: Found,
    lock: Option<Liveness>, lock': Option<Liveness>, existing: Option<Tombstone>, p: DeletePlan, at: Spot, i: nat)
    requires PlanOne(repo, request, uid, item, lock, existing) == Ok(p) && Follows(p, uid, item, request.selection)
    requires (item.meta.None? ==> item == NOTHING) && (existing.Some? ==> existing.value.runUid == uid)
    requires (item.source.Some? ==> item.meta.Some?) && at.removed <= at.cleared <= at.buried
    requires LeftOf(again.selection, item, left, at, i) && StillTarget(again.selection, p, at, i) &&
        Repeats(g, again, request)
    ensures PlanOne(repo, again, uid, left, lock', if i < at.buried then Some(p.tombstone) else existing)
         == Ok(PlanAgain(p, StagesOf(i, at.buried, at.cleared, at.removed), again))
  {
    if i >= at.buried {
      UntouchedAgain(g, repo, request, again, uid, item, lock, lock', existing, p);
    } else if i >= at.cleared {
      BuriedAgain(repo, request, again, uid, item, lock, lock', existing, p);
    } else if i >= at.removed && p.sourceDir.Some? {
      ClearedAgain(repo, again, uid, item, left, lock', p, request.selection);
    } else {
      NothingAgain(repo, again, uid, lock', p);
    }
  }

  lemma PlanUidAt(
    g: Grammar, repo: string, c: Command, at: Spot, i: nat, again: Request, all: FoundMap, left: FoundMap)
    requires Planned(g, repo, c) && at.Within(c.plans) && i < |c.plans| && Repeats(g, again, c.request)
    requires Scan(g, c.w, repo, again.selection) == Ok(all) && Get(all, c.uids[i]) == Get(c.found, c.uids[i])
    requires Scan(g, at.World(c.w, c.plans), repo, again.selection) == Ok(left)
    requires i < at.cleared ==> Alone(g, again.selection, c.w, c.plans[i])
    requires StillTarget(again.selection, c.plans[i], at, i)
    ensures PlansFor(at.World(c.w, c.plans), repo, again, left, BuriedAll(c.tombstones, c.plans[..at.buried]),
        c.uids[i],
                     AgainAt(c.plans, at, again, i))
  {
    var uid, p, sources := c.uids[i], c.plans[i], at.World(c.w, c.plans).sources;
    var item, leftItem := Get(c.found, uid), Get(left, uid);
    PlanFacts(g, repo, c, i);
    ItemAt(g, repo, c, at, i, again.selection, all);
    TombstoneReached(g, repo, c, at.buried, i);
    var lock := if item.source.Some? then LockAt(c.w.sources, item.source.value) else None;
    var lock' := if leftItem.source.Some? then LockAt(sources, leftItem.source.value) else None;
    assert PlansFor(c.w, repo, c.request, c.found, c.tombstones, uid, p);
    PlanOneAt(g, repo, c.request, again, uid, item, leftItem, lock, lock', Existing(c.tombstones, uid), p, at, i);
  }

  // The plans made again

  /** The first run that the same selection still plans for. */
  function First(selection: Selection, plans: seq<DeletePlan>, at: Spot): (r: nat)
    requires at.Within(plans)
    ensures r <= |plans|
    ensures forall i :: 0 <= i < |plans| ==> (StillTarget(selection, plans[i], at, i) <==> i >= r)
  {
    if selection.RunUids? then 0
    else if at.removed < at.cleared && plans[at.removed].sourceDir.None? then at.removed + 1
    else at.removed
  }

  function PlansAgain(plans: seq<DeletePlan>, at: Spot, first: nat, again: Request): (r: seq<DeletePlan>)
    requires first <= |plans|
    ensures |r| == |plans| - first
  {
    seq(|plans| - first, k requires 0 <= k < |plans| - first => AgainAt(plans, at, again, first + k))
  }

  /** Plan `i`, made again. */
  function AgainAt(plans: seq<DeletePlan>, at: Spot, again: Request, i: nat): DeletePlan
    requires i < |plans|
  {
    PlanAgain(plans[i], StagesOf(i, at.buried, at.cleared, at.removed), again)
  }

  /** Every plan of the command covers its run. */
  ghost predicate AllAlone(g: Grammar, c: Command) {
    forall p :: p in c.plans ==> Alone(g, c.request.selection, c.w, p)
  }

  /** A failed-experiment selection still finds just the runs it has not finished with. */
  lemma StillFailed(g: Grammar, repo: string, c: Command, at: Spot, left: FoundMap, i: nat)
    requires Planned(g, repo, c) && at.Within(c.plans) && i < |c.plans| && c.request.selection.FailedExperiment?
    requires Scan(g, at.World(c.w, c.plans), repo, c.request.selection) == Ok(left)
    requires i < at.cleared ==> Alone(g, c.request.selection, c.w, c.plans[i])
    ensures IsFailed(Get(left, c.uids[i])) <==> StillTarget(c.request.selection, c.plans[i], at, i)
  {
    PlanFacts(g, repo, c, i);
    ItemAt(g, repo, c, at, i, c.request.selection, c.found);
  }

  lemma NoOtherTarget(g: Grammar, repo: string, c: Command, at: Spot, left: FoundMap, uid: string)
    requires Planned(g, repo, c) && at.Within(c.plans) && c.request.selection.FailedExperiment?
    requires Scan(g, at.World(c.w, c.plans), repo, c.request.selection) == Ok(left)
    requires IsFailed(Get(left, uid))
    ensures uid in c.uids
  {
    ScanWithout(g, c.w, at.World(c.w, c.plans), repo, c.request.selection,
                AllDirs(c.plans[..at.removed]), AllPlaces(c.plans[..at.cleared]));
    assert Weaker(Get(left, uid), Get(c.found, uid));
    assert uid in Targets(c.request.selection, c.found) && uid in KeySet(c.uids);
  }

  lemma InRestIff(uids: seq<string>, first: nat, i: nat)
    requires Ascending(uids) && first <= |uids| && i < |uids|
    ensures uids[i] in uids[first..] <==> i >= first
  {
    if i >= first { assert uids[i] == uids[first..][i - first]; }
    if uids[i] in uids[first..] {
      var k :| 0 <= k < |uids| - first && uids[first..][k] == uids[i];
      BeforeTotal(uids[i], uids[first + k]);
    }
  }

  lemma TargetAgainIff(g: Grammar, repo: string, c: Command, at: Spot, left: FoundMap, uid: string)
    requires Planned(g, repo, c) && at.Within(c.plans) && AllAlone(g, c) && c.request.selection.FailedExperiment?
    requires Scan(g, at.World(c.w, c.plans), repo, c.request.selection) == Ok(left)
    ensures IsFailed(Get(left, uid)) <==> uid in c.uids[First(c.request.selection, c.plans, at)..]
  {
    if uid in c.uids {
      var i :| 0 <= i < |c.uids| && c.uids[i] == uid;
      assert c.plans[i] in c.plans;
      StillFailed(g, repo, c, at, left, i);
      InRestIff(c.uids, First(c.request.selection, c.plans, at), i);
    } else if IsFailed(Get(left, uid)) {
      NoOtherTarget(g, repo, c, at, left, uid);
    }
  }

  lemma TargetsAgain(g: Grammar, repo: string, c: Command, at: Spot, left: FoundMap)
    requires Planned(g, repo, c) && at.Within(c.plans) && AllAlone(g, c)
    requires Scan(g, at.World(c.w, c.plans), repo, c.request.selection) == Ok(left)
    ensures SortedKeys(Targets(c.request.selection, left)) == c.uids[First(c.request.selection, c.plans, at)..]
  {
    var selection := c.request.selection;
    var rest := c.uids[First(selection, c.plans, at)..];
    if selection.RunUids? {
      assert rest == c.uids;
    } else {
      forall uid
        ensures uid in Targets(selection, left) <==> uid in KeySet(rest)
      {
        TargetAgainIff(g, repo, c, at, left, uid);
      }
      assert Targets(selection, left) == KeySet(rest);
      AscendingUnique(SortedKeys(Targets(selection, left)), rest);
    }
  }

  lemma PlanFrom(
    g: Grammar, w: World, repo: string, request: Request, tombstones: map<string, Tombstone>, found: FoundMap,
    uids: seq<string>, plans: seq<DeletePlan>)
    requires ValidRequest(g, repo, request) && Read(g, repo, w.lines) == Ok(tombstones)
    requires Scan(g, w, repo, request.selection) == Ok(found) && uids == SortedKeys(Targets(request.selection, found))
    requires EachPlanned(w, repo, request, found, tombstones, uids, plans)
    ensures Plan(g, w, repo, request) == Ok(plans)
  {
    PlanEachPlans(w, repo, request, found, tombstones, uids, plans);
  }

  lemma PlansAgainAt(plans: seq<DeletePlan>, at: Spot, first: nat, again: Request, k: nat)
    requires first + k < |plans|
    ensures PlansAgain(plans, at, first, again)[k] == AgainAt(plans, at, again, first + k)
  {
  }

  lemma EachAgain(
    g: Grammar, repo: string, c: Command, at: Spot, again: Request, left: FoundMap, first: nat)
    requires Planned(g, repo, c) && at.Within(c.plans) && AllAlone(g, c)
    requires again.selection == c.request.selection && Repeats(g, again, c.request)
    requires Scan(g, at.World(c.w, c.plans), repo, again.selection) == Ok(left) &&
        first == First(again.selection, c.plans, at)
    ensures EachPlanned(at.World(c.w, c.plans), repo, again, left, BuriedAll(c.tombstones, c.plans[..at.buried]),
                        c.uids[first..], PlansAgain(c.plans, at, first, again))
  {
    forall k | 0 <= k < |c.uids[first..]|
      ensures PlansFor(at.World(c.w, c.plans), repo, again, left, BuriedAll(c.tombstones, c.plans[..at.buried]),
                       c.uids[first..][k], PlansAgain(c.plans, at, first, again)[k])
    {
      assert c.plans[first + k] in c.plans;
      PlanUidAt(g, repo, c, at, first + k, again, c.found, left);
      PlansAgainAt(c.plans, at, first, again, k);
    }
  }

  /** The same request, made again, plans for exactly the runs that are left. */
  lemma PlanAgainIs(g: Grammar, repo: string, c: Command, at: Spot, again: Request)
    requires Planned(g, repo, c) && at.Within(c.plans) && AllAlone(g, c)
    requires again.selection == c.request.selection && Repeats(g, again, c.request)
    ensures Plan(g, at.World(c.w, c.plans), repo, again)
         == Ok(PlansAgain(c.plans, at, First(again.selection, c.plans, at), again))
  {
    var w', first := at.World(c.w, c.plans), First(again.selection, c.plans, at);
    ScanWithout(g, c.w, w', repo, again.selection, AllDirs(c.plans[..at.removed]), AllPlaces(c.plans[..at.cleared]));
    var left := Scan(g, w', repo, again.selection).value;
    FileReached(g, repo, c, at.buried);
    TargetsAgain(g, repo, c, at, left);
    EachAgain(g, repo, c, at, again, left, first);
    PlanFrom(g, w', repo, again, BuriedAll(c.tombstones, c.plans[..at.buried]), left, c.uids[first..],
             PlansAgain(c.plans, at, first, again));
  }
}
