/**
 Planning a deletion again after it stopped. Run by run: what the scans still
 find, what the tombstone file says, and the plan that follows from both.
*/
module DeletionAgain {
  import opened Wrappers
  import opened TextOrder
  import opened Deletion
  import opened DeletionScan
  import opened DeletionProgress

  // A planned command

  /** A request, the repository it was planned in, and everything planning found there. */
  datatype Command = Command(
    w: World, request: Request, found: FoundMap, tombstones: map<string, Tombstone>,
    uids: seq<string>, plans: seq<DeletePlan>)

  ghost predicate Planned(g: Grammar, repo: string, c: Command) {
    && OneRunEach(c.w.sources) && ValidRequest(g, repo, c.request)
    && Read(g, repo, c.w.lines) == Ok(c.tombstones)
    && Scan(g, c.w, repo, c.request.selection) == Ok(c.found)
    && c.uids == SortedKeys(Targets(c.request.selection, c.found))
    && EachPlanned(c.w, repo, c.request, c.found, c.tombstones, c.uids, c.plans)
  }

  predicate PlansFor(
    w: World, repo: string, request: Request, found: FoundMap, tombstones: map<string, Tombstone>, uid: string,
    p: DeletePlan)
  {
    PlanUid(w, repo, request, found, tombstones, uid) == Ok(p)
  }

  ghost predicate EachPlanned(
    w: World, repo: string, request: Request, found: FoundMap, tombstones: map<string, Tombstone>,
    uids: seq<string>, plans: seq<DeletePlan>)
  {
    && |plans| == |uids|
    && forall i :: 0 <= i < |uids| ==> PlansFor(w, repo, request, found, tombstones, uids[i], plans[i])
  }

  lemma {:induction false} PlanEachPlans(
    w: World, repo: string, request: Request, found: FoundMap, tombstones: map<string, Tombstone>,
    uids: seq<string>, plans: seq<DeletePlan>)
    ensures PlanEach(w, repo, request, found, tombstones, uids) == Ok(plans) <==>
            EachPlanned(w, repo, request, found, tombstones, uids, plans)
  {
    if uids != [] {
      var last := |uids| - 1;
      if |plans| == |uids| {
        PlanEachPlans(w, repo, request, found, tombstones, uids[..last], plans[..last]);
        assert plans == plans[..last] + [plans[last]];
      } else if PlanEach(w, repo, request, found, tombstones, uids[..last]).Ok? {
        PlanEachPlans(w, repo, request, found, tombstones, uids[..last],
                      PlanEach(w, repo, request, found, tombstones, uids[..last]).value);
      }
    }
  }

  lemma PlanIsPlanned(g: Grammar, w: World, repo: string, request: Request, plans: seq<DeletePlan>) returns (c: Command)
    requires OneRunEach(w.sources) && Plan(g, w, repo, request) == Ok(plans)
    ensures Planned(g, repo, c) && c.w == w && c.request == request && c.plans == plans
  {
    var tombstones := Read(g, repo, w.lines).value;
    var found := Scan(g, w, repo, request.selection).value;
    var uids := SortedKeys(Targets(request.selection, found));
    PlanEachPlans(w, repo, request, found, tombstones, uids, plans);
    c := Command(w, request, found, tombstones, uids, plans);
  }

  // One plan of a command

  /** The plan of a run of which only a tombstone is left. */
  function FromTombstone(p: DeletePlan): DeletePlan {
    DeletePlan(p.runUid, p.tombstone.runSlug, p.tombstone.experiment, None, None, p.tombstone, true)
  }

  /** How a plan follows from what was found. */
  predicate Follows(p: DeletePlan, uid: string, item: Found, selection: Selection) {
    && p.runUid == uid && p.sourceDir == item.source && p.vaultPlace == item.vault
    && (item.meta.Some? ==> p.runSlug == item.meta.value.runSlug && p.experiment == item.meta.value.experiment)
    && (item.meta.Some? ==> !item.unfinished && item.status.Some?)
    && (item.meta.None? ==> p == FromTombstone(p))
    && (selection.FailedExperiment? ==> item.meta.Some? && IsFailed(item))
  }

  /** A new tombstone bears the words and the time of its request, and the run's own place. */
  predicate Stamped(p: DeletePlan, request: Request) {
    !p.alreadyTombstoned ==>
      && p.tombstone.reason == request.reason && p.tombstone.stamp == request.stamp
      && p.tombstone.experiment == p.experiment && p.tombstone.runSlug == p.runSlug
  }

  lemma PlanOneFollows(
    repo: string, request: Request, uid: string, item: Found, lock: Option<Liveness>, existing: Option<Tombstone>,
    p: DeletePlan)
    requires PlanOne(repo, request, uid, item, lock, existing) == Ok(p)
    requires existing.Some? ==> existing.value.runUid == uid
    requires item.meta.None? ==> item == NOTHING
    requires request.selection.FailedExperiment? ==> item.meta.Some? && IsFailed(item)
    ensures Follows(p, uid, item, request.selection)
    ensures p.alreadyTombstoned <==> existing.Some?
    ensures existing.Some? ==> p.tombstone == existing.value
    ensures existing.None? ==>
              item.meta.Some? && p.tombstone.runUid == uid && p.tombstone.repoId == repo && Stamped(p, request)
  {
  }

  lemma TargetIsValid(g: Grammar, repo: string, c: Command, i: nat)
    requires Planned(g, repo, c) && i < |c.plans|
    ensures c.uids[i] in Targets(c.request.selection, c.found) && g.runUid(c.uids[i])
    ensures Says(g, c.request.selection, c.w, Get(c.found, c.uids[i]), c.uids[i])
    ensures c.request.selection.FailedExperiment? ==> IsFailed(Get(c.found, c.uids[i]))
  {
    assert c.uids[i] in KeySet(c.uids);
    ScanSays(g, c.w, repo, c.request.selection, c.uids[i]);
  }

  lemma PlanFacts(g: Grammar, repo: string, c: Command, i: nat)
    requires Planned(g, repo, c) && i < |c.plans|
    ensures g.runUid(c.uids[i]) && Says(g, c.request.selection, c.w, Get(c.found, c.uids[i]), c.uids[i])
    ensures Follows(c.plans[i], c.uids[i], Get(c.found, c.uids[i]), c.request.selection)
    ensures PreparedOne(g, repo, c.tombstones, c.plans[i]) && Stamped(c.plans[i], c.request)
  {
    var uid := c.uids[i];
    TargetIsValid(g, repo, c, i);
    ReadFindsEveryRecord(g, repo, c.w.lines, uid);
    var item := Get(c.found, uid);
    assert PlansFor(c.w, repo, c.request, c.found, c.tombstones, uid, c.plans[i]);
    var lock := if item.source.Some? then LockAt(c.w.sources, item.source.value) else None;
    PlanOneFollows(repo, c.request, uid, item, lock, Existing(c.tombstones, uid), c.plans[i]);
  }

  lemma CommandIsPrepared(g: Grammar, repo: string, c: Command)
    requires Planned(g, repo, c)
    ensures PreparedAll(g, repo, c.tombstones, c.plans) && Prepared(g, repo, c.w.lines, c.plans)
  {
    forall i | 0 <= i < |c.plans|
      ensures PreparedOne(g, repo, c.tombstones, c.plans[i]) && c.plans[i].runUid == c.uids[i]
    {
      PlanFacts(g, repo, c, i);
    }
    forall i, j | 0 <= i < j < |c.plans|
      ensures c.plans[i].runUid != c.plans[j].runUid
    {
      BeforeTotal(c.uids[i], c.uids[j]);
    }
  }

  // What the plans that have passed a stage have taken

  lemma DirBelongsToItsRun(g: Grammar, repo: string, c: Command, n: nat, s: Source)
    requires Planned(g, repo, c) && n <= |c.plans| && s in c.w.sources && s.content.Run? &&
        s.dir in AllDirs(c.plans[..n])
    ensures exists i :: 0 <= i < n && c.uids[i] == s.content.meta.runUid && s.dir in DirsOf(c.plans[i])
  {
    InAllDirs(c.plans[..n], s.dir);
    var p :| p in c.plans[..n] && s.dir in DirsOf(p);
    var i :| 0 <= i < n && c.plans[i] == p;
    PlanFacts(g, repo, c, i);
    var t :| t in c.w.sources && Takes(c.request.selection, t, c.uids[i]) && IsSourceOf(t, Get(c.found, c.uids[i]));
    assert s == t;
  }

  lemma PlaceBelongsToItsRun(g: Grammar, repo: string, c: Command, n: nat, v: VaultDir)
    requires Planned(g, repo, c) && n <= |c.plans| && PlaceOf(v) in AllPlaces(c.plans[..n])
    ensures exists i :: 0 <= i < n && c.uids[i] == v.name && PlaceOf(v) in PlacesOf(c.plans[i])
  {
    InAllPlaces(c.plans[..n], PlaceOf(v));
    var p :| p in c.plans[..n] && PlaceOf(v) in PlacesOf(p);
    var i :| 0 <= i < n && c.plans[i] == p;
    PlanFacts(g, repo, c, i);
  }

  lemma DistinctUids(c: Command, i: nat, j: nat)
    requires Ascending(c.uids) && i < |c.uids| && j < |c.uids| && c.uids[i] == c.uids[j]
    ensures i == j
  {
    BeforeTotal(c.uids[i], c.uids[j]);
  }

  lemma LaterLosesNothing(g: Grammar, repo: string, c: Command, n: nat, i: nat)
    requires Planned(g, repo, c) && n <= i < |c.plans|
    ensures !LosesSource(c.w.sources, AllDirs(c.plans[..n]), c.uids[i])
    ensures !LosesPlace(c.w.vault, AllPlaces(c.plans[..n]), c.uids[i])
  {
    if s :| s in c.w.sources && Carries(s, c.uids[i]) && s.dir in AllDirs(c.plans[..n]) {
      DirBelongsToItsRun(g, repo, c, n, s);
      var k :| 0 <= k < n && c.uids[k] == c.uids[i];
      DistinctUids(c, k, i);
    }
    if v :| v in c.w.vault && v.name == c.uids[i] && PlaceOf(v) in AllPlaces(c.plans[..n]) {
      PlaceBelongsToItsRun(g, repo, c, n, v);
      var k :| 0 <= k < n && c.uids[k] == c.uids[i];
      DistinctUids(c, k, i);
    }
  }

  // The tombstone file

  lemma FileReached(g: Grammar, repo: string, c: Command, buried: nat)
    requires Planned(g, repo, c) && buried <= |c.plans|
    ensures Read(g, repo, c.w.lines + NewLines(c.plans[..buried])) == Ok(BuriedAll(c.tombstones, c.plans[..buried]))
  {
    CommandIsPrepared(g, repo, c);
    assert PreparedAll(g, repo, c.tombstones, c.plans[..buried]);
    ReadAll(g, repo, c.w.lines, c.tombstones, c.plans[..buried]);
  }

  lemma TombstoneReached(g: Grammar, repo: string, c: Command, buried: nat, i: nat)
    requires Planned(g, repo, c) && buried <= |c.plans| && i < |c.plans|
    ensures Existing(BuriedAll(c.tombstones, c.plans[..buried]), c.uids[i])
         == if i < buried then Some(c.plans[i].tombstone) else Existing(c.tombstones, c.uids[i])
  {
    CommandIsPrepared(g, repo, c);
    PlanFacts(g, repo, c, i);
    var begun := c.plans[..buried];
    if i < buried {
      assert PreparedAll(g, repo, c.tombstones, begun);
      BuriedRead(g, repo, c.tombstones, begun, i);
    } else {
      forall p | p in begun
        ensures p.runUid != c.uids[i]
      {
        var k :| 0 <= k < buried && c.plans[k] == p;
        assert c.plans[k].runUid != c.plans[i].runUid;
      }
      OthersRead(c.tombstones, begun, c.uids[i]);
    }
  }

  // The plan that follows

  /** A later request for the same deletion may be worded anew and may admit more. */
  predicate Repeats(g: Grammar, again: Request, request: Request) {
    !g.blank(again.reason) && (request.includeSucceeded ==> again.includeSucceeded)
  }

  function Restamp(p: DeletePlan, again: Request): DeletePlan {
    if p.alreadyTombstoned then p
    else p.(tombstone := p.tombstone.(reason := again.reason, stamp := again.stamp))
  }

  /** The plan made again for a run whose plan has passed some stages. */
  function PlanAgain(p: DeletePlan, passed: nat, again: Request): DeletePlan {
    if passed == 0 then Restamp(p, again)
    else if passed == 1 then p.(alreadyTombstoned := true)
    else if passed == 2 && p.sourceDir.Some? then p.(vaultPlace := None, alreadyTombstoned := true)
    else FromTombstone(p)
  }

  /** How many stages plan number `i` has passed. */
  function StagesOf(i: nat, buried: nat, cleared: nat, removed: nat): nat {
    if i < removed then 3 else if i < cleared then 2 else if i < buried then 1 else 0
  }

  lemma UntouchedAgain(
    g: Grammar, repo: string, request: Request, again: Request, uid: string, item: Found,
    lock: Option<Liveness>, lock': Option<Liveness>, existing: Option<Tombstone>, p: DeletePlan)
    requires PlanOne(repo, request, uid, item, lock, existing) == Ok(p) && Repeats(g, again, request)
    ensures PlanOne(repo, again, uid, item, lock', existing) == Ok(PlanAgain(p, 0, again))
  {
  }

  lemma BuriedAgain(
    repo: string, request: Request, again: Request, uid: string, item: Found,
    lock: Option<Liveness>, lock': Option<Liveness>, existing: Option<Tombstone>, p: DeletePlan)
    requires PlanOne(repo, request, uid, item, lock, existing) == Ok(p)
    requires item.meta.None? ==> item == NOTHING
    requires existing.Some? ==> existing.value.runUid == uid
    ensures PlanOne(repo, again, uid, item, lock', Some(p.tombstone)) == Ok(PlanAgain(p, 1, again))
  {
  }

  lemma ClearedAgain(
    repo: string, again: Request, uid: string, item: Found, left: Found, lock': Option<Liveness>,
    p: DeletePlan, selection: Selection)
    requires Follows(p, uid, item, selection) && item.source.Some? && item.meta.Some?
    requires left.meta.Some? && SameName(left.meta.value, item.meta.value)
    requires left.source == item.source && left.vault.None? && !left.unfinished && left.status.Some?
    ensures PlanOne(repo, again, uid, left, lock', Some(p.tombstone)) == Ok(PlanAgain(p, 2, again))
  {
  }

  lemma NothingAgain(repo: string, again: Request, uid: string, lock': Option<Liveness>, p: DeletePlan)
    requires p.runUid == uid
    ensures PlanOne(repo, again, uid, NOTHING, lock', Some(p.tombstone)) == Ok(FromTombstone(p))
  {
  }
}
