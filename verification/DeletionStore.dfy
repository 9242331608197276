/**
 `runvault delete` as it reads and changes one repository in place: scans that
 fill a map, and stages that rewrite the tombstone file, the vault and the
 source tree. Every method is proved against the specification in `Deletion`.
*/
module DeletionStore {
  import opened Wrappers
  import opened TextOrder
  import opened Deletion

  /** The least key of a set, by one pass over its elements. */
  method Least(keys: set<string>) returns (least: string)
    requires keys != {}
    ensures IsLeast(keys, least)
  {
    least :| least in keys;
    var rest := keys - {least};
    while rest != {}
      invariant least in keys && least !in rest && rest <= keys
      invariant forall k :: k in keys && k !in rest && k != least ==> Before(least, k)
      decreases |rest|
    {
      var k :| k in rest;
      rest := rest - {k};
      BeforeTotal(k, least);
      if Before(k, least) {
        forall j | j in keys && j !in rest && j != k
          ensures Before(k, j)
        {
          if j != least { BeforeTransitive(k, least, j); }
        }
        least := k;
      }
    }
  }

  /** The elements of a set in order, as an ordered set gives them. */
  method InOrder(keys: set<string>) returns (sorted: seq<string>)
    ensures sorted == SortedKeys(keys)
  {
    sorted := [];
    var rest := keys;
    while rest != {}
      invariant rest <= keys && KeySet(sorted) == keys - rest && Ascending(sorted)
      invariant forall i, k :: 0 <= i < |sorted| && k in rest ==> Before(sorted[i], k)
      decreases |rest|
    {
      var least := Least(rest);
      AppendedKey(sorted, least);
      rest := rest - {least};
      sorted := sorted + [least];
    }
    AscendingUnique(sorted, SortedKeys(keys));
  }

  lemma AppendedKey(sorted: seq<string>, key: string)
    ensures KeySet(sorted + [key]) == KeySet(sorted) + {key}
  {
    forall k
      ensures k in sorted + [key] <==> k in sorted || k == key
    {
    }
  }

  class Repository {
    const grammar: Grammar
    const repo: string
    var sources: seq<Source>
    var vault: seq<VaultDir>
    var links: set<Link>
    var lines: seq<Line>

    function View(): World
      reads this
    {
      World(sources, vault, links, lines)
    }

    constructor (grammar: Grammar, repo: string, w: World)
      ensures View() == w && this.grammar == grammar && this.repo == repo
    {
      this.grammar := grammar;
      this.repo := repo;
      sources := w.sources;
      vault := w.vault;
      links := w.links;
      lines := w.lines;
    }

    /** The tombstones recorded so far. */
    method ReadTombstones() returns (r: Result<map<string, Tombstone>, Error>)
      ensures r == Read(grammar, repo, lines)
    {
      var out: map<string, Tombstone> := map[];
      for i := 0 to |lines|
        invariant Read(grammar, repo, lines[..i]) == Ok(out)
      {
        assert lines[..i + 1][..i] == lines[..i];
        if lines[i].Garbage? || (lines[i].Recorded? && !ValidTombstone(grammar, repo, lines[i].tombstone)) {
          FailedReadFails(grammar, repo, lines, i + 1);
          return Err(BadTombstone);
        }
        if lines[i].Recorded? && lines[i].tombstone.runUid !in out {
          out := out[lines[i].tombstone.runUid := lines[i].tombstone];
        }
      }
      assert lines[..|lines|] == lines;
      r := Ok(out);
    }

    /** Reads every source directory the selection names. */
    method FindSources(selection: Selection) returns (r: Result<FoundMap, Error>)
      ensures r == ScanSources(grammar, repo, selection, sources)
    {
      var found: FoundMap := map[];
      for i := 0 to |sources|
        invariant ScanSources(grammar, repo, selection, sources[..i]) == Ok(found)
      {
        assert sources[..i + 1][..i] == sources[..i];
        var next := AbsorbSource(grammar, repo, selection, found, sources[i]);
        if next.Err? {
          FailedScanFails(grammar, repo, selection, sources, i + 1);
          return Err(next.error);
        }
        found := next.value;
      }
      assert sources[..|sources|] == sources;
      r := Ok(found);
    }

    /** Adds what the vault holds of the selected runs. */
    method FindVault(selection: Selection, known: FoundMap) returns (r: Result<FoundMap, Error>)
      ensures r == ScanVault(grammar, repo, selection, known, vault)
    {
      var found := known;
      for i := 0 to |vault|
        invariant ScanVault(grammar, repo, selection, known, vault[..i]) == Ok(found)
      {
        assert vault[..i + 1][..i] == vault[..i];
        var next := AbsorbVault(grammar, repo, selection, found, vault[i]);
        if next.Err? {
          FailedVaultScanFails(grammar, repo, selection, known, vault, i + 1);
          return Err(next.error);
        }
        found := next.value;
      }
      assert vault[..|vault|] == vault;
      r := Ok(found);
    }

    /** Every target planned in uid order, or the first error; the state stays as it is. */
    method PlanDeletion(request: Request) returns (r: Result<seq<DeletePlan>, Error>)
      ensures r == Plan(grammar, View(), repo, request)
    {
      if !ValidRequest(grammar, repo, request) { return Err(BadArgument); }
      var tombstones := ReadTombstones();
      if tombstones.Err? { return Err(tombstones.error); }
      var inSources := FindSources(request.selection);
      if inSources.Err? { return Err(inSources.error); }
      var found := FindVault(request.selection, inSources.value);
      if found.Err? { return Err(found.error); }
      var uids := InOrder(Targets(request.selection, found.value));
      r := PlanTargets(request, found.value, tombstones.value, uids);
    }

    /** One plan for each target, up to the first that is refused. */
    method PlanTargets(request: Request, found: FoundMap, tombstones: map<string, Tombstone>, uids: seq<string>)
        returns (r: Result<seq<DeletePlan>, Error>)
      ensures r == PlanEach(View(), repo, request, found, tombstones, uids)
    {
      var w := View();
      var plans: seq<DeletePlan> := [];
      for i := 0 to |uids|
        invariant PlanEach(w, repo, request, found, tombstones, uids[..i]) == Ok(plans)
      {
        assert uids[..i + 1][..i] == uids[..i];
        var p := PlanUid(w, repo, request, found, tombstones, uids[i]);
        if p.Err? {
          FailedPlanFails(w, repo, request, found, tombstones, uids, i + 1);
          return Err(p.error);
        }
        plans := plans + [p.value];
      }
      assert uids[..|uids|] == uids;
      r := Ok(plans);
    }

    /** Records the deletion, unless it already is. */
    method Bury(p: DeletePlan) returns (r: Result<(), Error>)
      requires p.tombstone.repoId == repo
      modifies this`lines
      ensures r.Ok? <==> AppendTombstone(grammar, old(View()), p).Ok?
      ensures View() == if r.Ok? then AppendTombstone(grammar, old(View()), p).value else old(View())
    {
      if p.alreadyTombstoned { return Ok(()); }
      var tombstones := ReadTombstones();
      if tombstones.Err? { return Err(tombstones.error); }
      if p.runUid !in tombstones.value {
        lines := lines + [Recorded(p.tombstone)];
      }
      r := Ok(());
    }

    /** Of the vault, just the planned directory and the run's link are gone; the rest keeps its order. */
    method ClearVault(p: DeletePlan)
      modifies this`vault, this`links
      ensures forall v :: v in vault <==> v in old(vault) && Some(PlaceOf(v)) != p.vaultPlace
      ensures p.vaultPlace.None? ==> vault == old(vault)
      ensures links + {LinkOf(p)} == old(links) + {LinkOf(p)} && LinkOf(p) !in links
      ensures View() == RemoveVault(old(View()), p)
    {
      NothingRemoved(View());
      PlacesLeft(vault, PlacesOf(p));
      if p.vaultPlace.Some? {
        vault := WithoutPlaces(vault, {p.vaultPlace.value});
      }
      links := links - {LinkOf(p)};
    }

    /** Of the sources, just the planned directory is gone; the rest keeps its order. */
    method ClearSource(p: DeletePlan)
      modifies this`sources
      ensures forall s :: s in sources <==> s in old(sources) && Some(s.dir) != p.sourceDir
      ensures p.sourceDir.None? ==> sources == old(sources)
      ensures View() == RemoveSource(old(View()), p)
    {
      NothingRemoved(View());
      DirsLeft(sources, DirsOf(p));
      if p.sourceDir.Some? {
        sources := WithoutDirs(sources, {p.sourceDir.value});
      }
    }

    /** Carries a plan out, in order, and stops after so many stages. */
    method Carry(p: DeletePlan, stages: nat) returns (r: Result<(), Error>)
      requires p.tombstone.repoId == repo
      modifies this
      ensures r.Ok? <==> Execute(grammar, old(View()), p, stages).Ok?
      ensures View() == if r.Ok? then Execute(grammar, old(View()), p, stages).value else old(View())
    {
      r := Ok(());
      if stages == 0 { return; }
      r := Bury(p);
      if r.Err? || stages == 1 { return; }
      ClearVault(p);
      if stages == 2 { return; }
      ClearSource(p);
    }
  }

  lemma {:induction false} FailedReadFails(g: Grammar, repo: string, lines: seq<Line>, n: nat)
    requires n <= |lines| && Read(g, repo, lines[..n]).Err?
    ensures Read(g, repo, lines) == Read(g, repo, lines[..n])
    decreases |lines|
  {
    if n < |lines| {
      assert lines[..|lines| - 1][..n] == lines[..n];
      FailedReadFails(g, repo, lines[..|lines| - 1], n);
    } else {
      assert lines[..n] == lines;
    }
  }

  lemma {:induction false} FailedScanFails(g: Grammar, repo: string, selection: Selection, sources: seq<Source>, n: nat)
    requires n <= |sources| && ScanSources(g, repo, selection, sources[..n]).Err?
    ensures ScanSources(g, repo, selection, sources) == ScanSources(g, repo, selection, sources[..n])
    decreases |sources|
  {
    if n < |sources| {
      assert sources[..|sources| - 1][..n] == sources[..n];
      FailedScanFails(g, repo, selection, sources[..|sources| - 1], n);
    } else {
      assert sources[..n] == sources;
    }
  }

  lemma {:induction false} FailedVaultScanFails(
    g: Grammar, repo: string, selection: Selection, found: FoundMap, vault: seq<VaultDir>, n: nat)
    requires n <= |vault| && ScanVault(g, repo, selection, found, vault[..n]).Err?
    ensures ScanVault(g, repo, selection, found, vault) == ScanVault(g, repo, selection, found, vault[..n])
    decreases |vault|
  {
    if n < |vault| {
      assert vault[..|vault| - 1][..n] == vault[..n];
      FailedVaultScanFails(g, repo, selection, found, vault[..|vault| - 1], n);
    } else {
      assert vault[..n] == vault;
    }
  }

  lemma {:induction false} FailedPlanFails(
    w: World, repo: string, request: Request, found: FoundMap, tombstones: map<string, Tombstone>, uids: seq<string>,
    n: nat)
    requires n <= |uids| && PlanEach(w, repo, request, found, tombstones, uids[..n]).Err?
    ensures PlanEach(w, repo, request, found, tombstones, uids) ==
        PlanEach(w, repo, request, found, tombstones, uids[..n])
    decreases |uids|
  {
    if n < |uids| {
      assert uids[..|uids| - 1][..n] == uids[..n];
      FailedPlanFails(w, repo, request, found, tombstones, uids[..|uids| - 1], n);
    } else {
      assert uids[..n] == uids;
    }
  }
}
