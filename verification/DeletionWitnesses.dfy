/**
 Repositories in which a deletion leaves something out, or cannot be restarted:
 one for each condition of the theorems in `DeletionRepeat` and `DeletionOneRun`.
*/
module DeletionWitnesses {
  import opened Wrappers
  import opened Deletion
  import opened DeletionScan
  import opened DeletionAgain
  import opened DeletionRepeat
  import opened DeletionOneRun

  const REPO := "r"
  const UID := "u"

  /** The grammars matter only in that the directory of links is no uid and no reason is blank. */
  function Lenient(): Grammar {
    Grammar(uid => uid != "by-slug", _ => true, _ => true, reason => reason == "")
  }

  function MetaIn(experiment: string): Meta {
    Meta(REPO, UID, experiment, "s")
  }

  const FAILED: Option<Status> := Some(Status(UID, Failed))

  function SourceIn(dir: string, experiment: string): Source {
    Source(dir, Run(MetaIn(experiment), FAILED, None))
  }

  /** A vault directory, and the experiment its `run.json` names. */
  function VaultIn(experiment: string, named: string): VaultDir {
    VaultDir(experiment, UID, Some(MetaIn(named)), FAILED)
  }

  function Ask(selection: Selection): Request {
    Request(selection, "why", "now", false)
  }

  // Scanning a handful of directories

  lemma ScanOneSource(selection: Selection, s: Source)
    ensures ScanSources(Lenient(), REPO, selection, [s]) == AbsorbSource(Lenient(), REPO, selection, map[], s)
  {
    assert [s][..0] == [];
  }

  lemma ScanTwoSources(selection: Selection, s: Source, t: Source)
    requires AbsorbSource(Lenient(), REPO, selection, map[], s).Ok?
    ensures ScanSources(Lenient(), REPO, selection, [s, t])
         == AbsorbSource(Lenient(), REPO, selection, AbsorbSource(Lenient(), REPO, selection, map[], s).value, t)
  {
    assert [s, t][..1] == [s];
    ScanOneSource(selection, s);
  }

  lemma ScanOneVault(selection: Selection, found: FoundMap, v: VaultDir)
    ensures ScanVault(Lenient(), REPO, selection, found, [v]) == AbsorbVault(Lenient(), REPO, selection, found, v)
  {
    assert [v][..0] == [];
  }

  /** The plan of a run that is found failed, with nothing recorded of it. */
  function FreshPlan(item: Found): DeletePlan
    requires item.meta.Some?
  {
    var meta := item.meta.value;
    DeletePlan(UID, meta.runSlug, meta.experiment, item.source, item.vault,
               Tombstone(UID, REPO, meta.experiment, meta.runSlug, Failed, "why", "now"), false)
  }

  lemma PlanOfFound(w: World, selection: Selection, found: FoundMap)
    requires w.lines == [] && Scan(Lenient(), w, REPO, selection) == Ok(found)
    requires found.Keys == {UID} && found[UID].meta.Some? && !found[UID].unfinished && found[UID].status == FAILED
    requires selection == Only(UID) || selection.FailedExperiment?
    ensures Plan(Lenient(), w, REPO, Ask(selection)) == Ok([FreshPlan(found[UID])])
  {
    var plan := FreshPlan(found[UID]);
    assert Targets(selection, found) == {UID};
    SortedOne(UID);
    assert PlansFor(w, REPO, Ask(selection), found, map[], UID, plan);
    PlanEachPlans(w, REPO, Ask(selection), found, map[], [UID], [plan]);
  }

  // A run with two source directories

  function TwoSources(): World {
    World([SourceIn("d", "a"), SourceIn("e", "a")], [], {}, [])
  }

  /** Deleting it removes one of the two, and repeating the command removes the other. */
  lemma TwoSourcesLeaveOne() returns (plans: seq<DeletePlan>)
    ensures Sound(Lenient()) && OneRunEach(TwoSources().sources)
    ensures Plan(Lenient(), TwoSources(), REPO, Ask(Only(UID))) == Ok(plans) && |plans| == 1
    ensures AnyCarries(Done(Lenient(), TwoSources(), plans).sources, UID)
    ensures !(forall stages: nat :: RestartsAfter(Lenient(), REPO, TwoSources(), Ask(Only(UID)), plans, Ask(Only(UID)),
        stages))
  {
    var w, s, t := TwoSources(), SourceIn("d", "a"), SourceIn("e", "a");
    var item := Found(Some(MetaIn("a")), FAILED, Some("d"), None, false);
    assert AbsorbSource(Lenient(), REPO, Only(UID), map[], s) == Ok(map[UID := item]);
    var found: FoundMap := map[UID := item.(source := Some("e"))];
    assert AbsorbSource(Lenient(), REPO, Only(UID), map[UID := item], t) == Ok(found) by {
      assert map[UID := item][UID := item.(source := Some("e"))] == found;
    }
    ScanTwoSources(Only(UID), s, t);
    assert Scan(Lenient(), w, REPO, Only(UID)) == Ok(found);
    PlanOfFound(w, Only(UID), found);
    plans := [FreshPlan(found[UID])];
    assert s in w.sources && t in w.sources && Carries(s, UID) && Carries(t, UID) && s.dir != t.dir;
    assert plans[0] in plans;
    GoneIffWhollyTaken(Lenient(), w, REPO, Ask(Only(UID)), plans, plans[0]);
    assert TakesAgain(Only(UID), s, UID) && TakesAgain(Only(UID), t, UID);
    RestartsIffNothingLeftOut(Lenient(), REPO, w, Ask(Only(UID)), plans, Ask(Only(UID)));
  }

  // Copies that disagree on the experiment

  /** The source says "b", the vault copy lies in "a" and says "a". */
  function Disagreeing(): World {
    World([SourceIn("d", "b")], [VaultIn("a", "a")], {}, [])
  }

  lemma DisagreeingIsPlanned() returns (plans: seq<DeletePlan>)
    ensures Plan(Lenient(), Disagreeing(), REPO, Ask(FailedExperiment("a"))) == Ok(plans) && |plans| == 1
    ensures plans[0].runUid == UID && plans[0].vaultPlace == Some(Place("a", UID)) && plans[0].sourceDir.None?
    ensures !plans[0].alreadyTombstoned && ValidTombstone(Lenient(), REPO, plans[0].tombstone) &&
        plans[0].tombstone.runUid == UID
  {
    var w, selection := Disagreeing(), FailedExperiment("a");
    ScanOneSource(selection, SourceIn("d", "b"));
    ScanOneVault(selection, map[], VaultIn("a", "a"));
    var found: FoundMap := map[UID := Found(Some(MetaIn("a")), FAILED, None, Some(Place("a", UID)), false)];
    assert Scan(Lenient(), w, REPO, selection) == Ok(found);
    PlanOfFound(w, selection, found);
    plans := [FreshPlan(found[UID])];
  }

  /** Deleted as a failed run of "a" and stopped after the tombstone, the run cannot be planned again by its uid. */
  lemma DisagreeingCannotBeNamed() returns (plans: seq<DeletePlan>)
    ensures Plan(Lenient(), Disagreeing(), REPO, Ask(FailedExperiment("a"))) == Ok(plans)
    ensures Plan(Lenient(), ExecuteAll(Lenient(), Disagreeing(), plans, 1), REPO, Ask(Only(UID))) == Err(Disagreement)
  {
    var w, selection := Disagreeing(), Only(UID);
    plans := DisagreeingIsPlanned();
    var left := ExecuteAll(Lenient(), w, plans, 1);
    ReadAppended(Lenient(), REPO, [], plans[0].tombstone);
    assert left == w.(lines := [] + [Recorded(plans[0].tombstone)]);
    ScanOneSource(selection, SourceIn("d", "b"));
    var found: FoundMap := map[UID := Found(Some(MetaIn("b")), FAILED, Some("d"), None, false)];
    ScanOneVault(selection, found, VaultIn("a", "a"));
    assert Scan(Lenient(), left, REPO, selection) == Err(Disagreement);
  }

  /** The source says "a"; the vault copy lies in "b". */
  function Elsewhere(): World {
    World([SourceIn("d", "a")], [VaultIn("b", "b")], {}, [])
  }

  /** Deleted as a failed run of "a", its copy in "b" stays. */
  lemma ElsewhereStays() returns (plans: seq<DeletePlan>)
    ensures Plan(Lenient(), Elsewhere(), REPO, Ask(FailedExperiment("a"))) == Ok(plans) && |plans| == 1
    ensures AnyNamed(Done(Lenient(), Elsewhere(), plans).vault, UID)
  {
    var w, selection := Elsewhere(), FailedExperiment("a");
    ScanOneSource(selection, SourceIn("d", "a"));
    var found: FoundMap := map[UID := Found(Some(MetaIn("a")), FAILED, Some("d"), None, false)];
    ScanOneVault(selection, found, VaultIn("b", "b"));
    assert Scan(Lenient(), w, REPO, selection) == Ok(found);
    PlanOfFound(w, selection, found);
    plans := [FreshPlan(found[UID])];
    var v := VaultIn("b", "b");
    assert v in w.vault && v.name == UID && !TakesVault(Lenient(), selection, v, UID);
    var c := PlanIsPlanned(Lenient(), w, REPO, Ask(selection), plans);
    PlanFacts(Lenient(), REPO, c, 0);
    DoneLeaves(Lenient(), REPO, c, 0);
  }

  // A tombstone that names another link

  /** Only a tombstone is left of the run, from before it was renamed; the link it names belongs to nobody now. */
  function Renamed(): World {
    World([SourceIn("d", "a")], [], {Link("old", "s0", UID)},
          [Recorded(Tombstone(UID, REPO, "old", "s0", Failed, "then", "earlier"))])
  }

  /** Repeating a deletion of it that had completed takes that link away. */
  lemma RenamedLosesALink() returns (plans: seq<DeletePlan>)
    ensures OneRunEach(Renamed().sources)
    ensures Plan(Lenient(), Renamed(), REPO, Ask(Only(UID))) == Ok(plans) && |plans| == 1
    ensures !(forall stages: nat :: RestartsAfter(Lenient(), REPO, Renamed(), Ask(Only(UID)), plans, Ask(Only(UID)),
        stages))
  {
    var w, s := Renamed(), SourceIn("d", "a");
    var t := w.lines[0].tombstone;
    assert w.lines[..0] == [];
    assert Read(Lenient(), REPO, w.lines) == Ok(map[UID := t]);
    ScanOneSource(Only(UID), s);
    var found: FoundMap := map[UID := Found(Some(MetaIn("a")), FAILED, Some("d"), None, false)];
    assert Scan(Lenient(), w, REPO, Only(UID)) == Ok(found);
    var plan := DeletePlan(UID, "s", "a", Some("d"), None, t, true);
    assert PlansFor(w, REPO, Ask(Only(UID)), found, map[UID := t], UID, plan);
    assert Targets(Only(UID), found) == {UID};
    SortedOne(UID);
    PlanEachPlans(w, REPO, Ask(Only(UID)), found, map[UID := t], [UID], [plan]);
    plans := [plan];
    assert plan in plans && !Harmless(w, plan);
    RestartsIffNothingLeftOut(Lenient(), REPO, w, Ask(Only(UID)), plans, Ask(Only(UID)));
  }
}
