/**
 What a deletion has done to the repository wherever it is stopped, told over
 the directories, the links and the lines one by one: each plan buries its run,
 then takes the run's vault directory and its link, then its source, before the
 next plan begins, and nothing else goes.
*/
module DeletionEffects {
  import opened Wrappers
  import opened Deletion
  import opened DeletionScan
  import opened DeletionProgress
  import opened DeletionAgain

  /** How many of `n` plans have come so far, when a plan comes so far by its stage number `stage`. */
  function Begun(stages: nat, stage: nat, n: nat): (r: nat)
    requires 1 <= stage <= 3
    ensures r <= n
  {
    var whole := (stages + 3 - stage) / 3;
    if whole < n then whole else n
  }

  lemma {:induction false} PassedIsBegun(stages: nat, stage: nat, n: nat)
    requires 1 <= stage <= 3
    ensures Passed(stages, stage, n) == Begun(stages, stage, n)
    decreases n
  {
    if n > 0 { PassedIsBegun(if stages > 3 then stages - 3 else 0, stage, n - 1); }
  }

  /** One of the first `n` plans names this source directory. */
  ghost predicate SourceNamed(plans: seq<DeletePlan>, n: nat, dir: string)
    requires n <= |plans|
  {
    exists i :: 0 <= i < n && plans[i].sourceDir == Some(dir)
  }

  ghost predicate PlaceNamed(plans: seq<DeletePlan>, n: nat, experiment: string, name: string)
    requires n <= |plans|
  {
    exists i :: 0 <= i < n && plans[i].vaultPlace == Some(Place(experiment, name))
  }

  ghost predicate LinkNamed(plans: seq<DeletePlan>, n: nat, link: Link)
    requires n <= |plans|
  {
    exists i :: 0 <= i < n && plans[i].experiment == link.experiment && plans[i].runSlug == link.slug &&
                plans[i].runUid == link.uid
  }

  /** What is there before and not named by a plan that has come so far is there after, and nothing else. */
  ghost predicate Leaves(before: World, plans: seq<DeletePlan>, stages: nat, after: World) {
    var buried, cleared, removed := Begun(stages, 1, |plans|), Begun(stages, 2, |plans|), Begun(stages, 3, |plans|);
    && (forall s :: s in after.sources <==> s in before.sources && !SourceNamed(plans, removed, s.dir))
    && (forall v :: v in after.vault <==> v in before.vault && !PlaceNamed(plans, cleared, v.experiment, v.name))
    && (forall l :: l in after.links <==> l in before.links && !LinkNamed(plans, cleared, l))
    && after.lines == before.lines + NewLines(plans[..buried])
  }

  lemma SourceNamedIff(plans: seq<DeletePlan>, n: nat, dir: string)
    requires n <= |plans|
    ensures dir in AllDirs(plans[..n]) <==> SourceNamed(plans, n, dir)
  {
    InAllDirs(plans[..n], dir);
    if SourceNamed(plans, n, dir) {
      var i :| 0 <= i < n && plans[i].sourceDir == Some(dir);
      assert plans[i] in plans[..n] && dir in DirsOf(plans[i]);
    }
  }

  lemma PlaceNamedIff(plans: seq<DeletePlan>, n: nat, v: VaultDir)
    requires n <= |plans|
    ensures PlaceOf(v) in AllPlaces(plans[..n]) <==> PlaceNamed(plans, n, v.experiment, v.name)
  {
    InAllPlaces(plans[..n], PlaceOf(v));
    if PlaceNamed(plans, n, v.experiment, v.name) {
      var i :| 0 <= i < n && plans[i].vaultPlace == Some(Place(v.experiment, v.name));
      assert plans[i] in plans[..n] && PlaceOf(v) in PlacesOf(plans[i]);
    }
  }

  lemma LinkNamedIff(plans: seq<DeletePlan>, n: nat, link: Link)
    requires n <= |plans|
    ensures link in AllLinks(plans[..n]) <==> LinkNamed(plans, n, link)
  {
    InAllLinks(plans[..n], link);
    if LinkNamed(plans, n, link) {
      var i :| 0 <= i < n && plans[i].experiment == link.experiment && plans[i].runSlug == link.slug &&
          plans[i].runUid == link.uid;
      assert plans[i] in plans[..n] && LinkOf(plans[i]) == link;
    }
  }

  /** Wherever the planned deletions are stopped. */
  lemma EveryStopLeaves(
    g: Grammar, w: World, repo: string, request: Request, plans: seq<DeletePlan>, stages: nat)
    requires OneRunEach(w.sources) && Plan(g, w, repo, request) == Ok(plans)
    ensures Leaves(w, plans, stages, ExecuteAll(g, w, plans, stages))
  {
    var c := PlanIsPlanned(g, w, repo, request, plans);
    CommandIsPrepared(g, repo, c);
    StagesReach(g, repo, w, plans, stages);
    PassedInOrder(stages, |plans|);
    PassedIsBegun(stages, 1, |plans|);
    PassedIsBegun(stages, 2, |plans|);
    PassedIsBegun(stages, 3, |plans|);
    ReachedLeaves(w, plans, stages);
  }

  lemma ReachedLeaves(w: World, plans: seq<DeletePlan>, stages: nat)
    requires Begun(stages, 3, |plans|) <= Begun(stages, 2, |plans|) <= Begun(stages, 1, |plans|)
    ensures Leaves(w, plans, stages,
        Reached(w, plans, Begun(stages, 1, |plans|), Begun(stages, 2, |plans|), Begun(stages, 3, |plans|)))
  {
    var cleared, removed := Begun(stages, 2, |plans|), Begun(stages, 3, |plans|);
    DirsLeft(w.sources, AllDirs(plans[..removed]));
    PlacesLeft(w.vault, AllPlaces(plans[..cleared]));
    forall s: Source
      ensures s.dir in AllDirs(plans[..removed]) <==> SourceNamed(plans, removed, s.dir)
    {
      SourceNamedIff(plans, removed, s.dir);
    }
    forall v: VaultDir
      ensures PlaceOf(v) in AllPlaces(plans[..cleared]) <==> PlaceNamed(plans, cleared, v.experiment, v.name)
    {
      PlaceNamedIff(plans, cleared, v);
    }
    forall l: Link
      ensures l in AllLinks(plans[..cleared]) <==> LinkNamed(plans, cleared, l)
    {
      LinkNamedIff(plans, cleared, l);
    }
  }
}
