/**
 What the scans of `runvault delete` say of one run, for either way of selecting
 runs, and what they still say once some directories are gone.
*/
module DeletionScan {
  import opened Wrappers
  import opened Deletion

  /** No uid is the name of the directory of links. */
  ghost predicate Sound(g: Grammar) {
    !g.runUid("by-slug")
  }

  /** A directory holds one run. */
  ghost predicate OneRunEach(sources: seq<Source>) {
    forall s, t :: s in sources && t in sources && s.dir == t.dir ==> s == t
  }

  predicate Carries(s: Source, uid: string) {
    s.content.Run? && s.content.meta.runUid == uid
  }

  predicate AnyCarries(sources: seq<Source>, uid: string) {
    exists s :: s in sources && Carries(s, uid)
  }

  predicate AnyNamed(vault: seq<VaultDir>, uid: string) {
    exists v :: v in vault && v.name == uid
  }

  /** The scan takes this directory for the run. */
  predicate Takes(selection: Selection, s: Source, uid: string) {
    Carries(s, uid) && Selected(selection, uid, s.content.meta.experiment)
  }

  /** A failed-experiment selection does not come back for a source without a status. */
  predicate TakesAgain(selection: Selection, s: Source, uid: string) {
    Takes(selection, s, uid) && (selection.RunUids? || s.content.status.Some?)
  }

  predicate TakesVault(g: Grammar, selection: Selection, v: VaultDir, uid: string) {
    v.name == uid && uid != "by-slug" && g.runUid(uid) && Selected(selection, uid, v.experiment)
  }

  predicate AnyTaken(selection: Selection, sources: seq<Source>, uid: string) {
    exists s :: s in sources && Takes(selection, s, uid)
  }

  predicate AnyStatus(selection: Selection, sources: seq<Source>, uid: string) {
    exists s :: s in sources && Takes(selection, s, uid) && s.content.status.Some?
  }

  predicate AnyVaultTaken(g: Grammar, selection: Selection, vault: seq<VaultDir>, uid: string) {
    exists v :: v in vault && TakesVault(g, selection, v, uid)
  }

  // What the scans say

  /** The directory that was kept for a run, and whether it has a status. */
  predicate IsSourceOf(s: Source, item: Found) {
    s.content.Run? && item.source == Some(s.dir) && item.unfinished == s.content.status.None?
  }

  ghost predicate FromSources(
    g: Grammar, selection: Selection, sources: seq<Source>, item: Found, uid: string)
  {
    && (item.source.Some? <==> AnyTaken(selection, sources, uid))
    && (item.source.Some? ==>
          exists s :: s in sources && Takes(selection, s, uid) && IsSourceOf(s, item))
    && (item.source.Some? <==> item.meta.Some?)
    && (item.meta.Some? ==> ValidMeta(g, item.meta.value) && item.meta.value.runUid == uid)
    && (item.source.Some? && !item.unfinished ==> item.status.Some?)
    && (item.status.Some? <==> AnyStatus(selection, sources, uid))
    && (item.source.None? ==> item == NOTHING)
    && item.vault.None?
  }

  lemma LastTaken(selection: Selection, sources: seq<Source>, uid: string)
    requires sources != []
    ensures var before, last := sources[..|sources| - 1], sources[|sources| - 1];
            && (AnyTaken(selection, sources, uid) <==>
                  Takes(selection, last, uid) || AnyTaken(selection, before, uid))
            && (AnyStatus(selection, sources, uid) <==>
                  (Takes(selection, last, uid) && last.content.status.Some?) || AnyStatus(selection, before, uid))
            && last in sources && forall s :: s in before ==> s in sources
  {
    assert sources == sources[..|sources| - 1] + [sources[|sources| - 1]];
  }

  lemma {:induction false} SourcesSay(
    g: Grammar, repo: string, selection: Selection, sources: seq<Source>, uid: string)
    requires ScanSources(g, repo, selection, sources).Ok?
    ensures FromSources(g, selection, sources, Get(ScanSources(g, repo, selection, sources).value, uid), uid)
  {
    if sources != [] {
      SourcesSay(g, repo, selection, sources[..|sources| - 1], uid);
      LastTaken(selection, sources, uid);
    }
  }

  /** What scanning the vault adds: a place, and the same identity. */
  ghost predicate FromVault(
    g: Grammar, selection: Selection, vault: seq<VaultDir>, before: Found, after: Found, uid: string)
  {
    && (before.vault.None? ==> (after.vault.Some? <==> AnyVaultTaken(g, selection, vault, uid)))
    && (before.vault.None? && after.vault.Some? ==>
          && after.meta.Some? && ValidMeta(g, after.meta.value) && after.meta.value.runUid == uid
          && exists v :: v in vault && TakesVault(g, selection, v, uid) && PlaceOf(v) == after.vault.value)
    && (before.vault.None? && after.vault.None? ==> after == before)
    && after.source == before.source && after.unfinished == before.unfinished
    && (before.meta.Some? ==> after.meta.Some? && SameName(after.meta.value, before.meta.value))
    && (before.status.Some? ==> after.status.Some?)
  }

  predicate SameName(a: Meta, b: Meta) {
    a.runUid == b.runUid && a.runSlug == b.runSlug && a.experiment == b.experiment
  }

  lemma LastVaultTaken(g: Grammar, selection: Selection, vault: seq<VaultDir>, uid: string)
    requires vault != []
    ensures var before, last := vault[..|vault| - 1], vault[|vault| - 1];
            && (AnyVaultTaken(g, selection, vault, uid) <==>
                  TakesVault(g, selection, last, uid) || AnyVaultTaken(g, selection, before, uid))
            && last in vault && forall v :: v in before ==> v in vault
  {
    assert vault == vault[..|vault| - 1] + [vault[|vault| - 1]];
  }

  lemma OneVaultSays(g: Grammar, repo: string, selection: Selection, found: FoundMap, v: VaultDir, uid: string)
    requires AbsorbVault(g, repo, selection, found, v).Ok?
    ensures var before, after := Get(found, uid), Get(AbsorbVault(g, repo, selection, found, v).value, uid);
            if !TakesVault(g, selection, v, uid) then after == before
            else
              && after.vault == Some(PlaceOf(v)) && after.source == before.source &&
                  after.unfinished == before.unfinished
              && after.meta.Some? && ValidMeta(g, after.meta.value) && after.meta.value.runUid == uid
              && (before.meta.Some? ==> SameName(after.meta.value, before.meta.value))
              && (before.status.Some? ==> after.status.Some?)
  {
  }

  lemma {:induction false} VaultSays(
    g: Grammar, repo: string, selection: Selection, found: FoundMap, vault: seq<VaultDir>, uid: string)
    requires ScanVault(g, repo, selection, found, vault).Ok?
    ensures FromVault(g, selection, vault, Get(found, uid),
                      Get(ScanVault(g, repo, selection, found, vault).value, uid), uid)
  {
    if vault != [] {
      var before, last := vault[..|vault| - 1], vault[|vault| - 1];
      VaultSays(g, repo, selection, found, before, uid);
      LastVaultTaken(g, selection, vault, uid);
      OneVaultSays(g, repo, selection, ScanVault(g, repo, selection, found, before).value, last, uid);
    }
  }

  /** What is known of a run once sources and vault have been scanned. */
  ghost predicate Says(g: Grammar, selection: Selection, w: World, item: Found, uid: string) {
    && (item.meta.Some? ==> ValidMeta(g, item.meta.value) && item.meta.value.runUid == uid)
    && (item.meta.None? ==> item == NOTHING)
    && (item.meta.Some? <==> item.source.Some? || item.vault.Some?)
    && (item.source.Some? <==> AnyTaken(selection, w.sources, uid))
    && (item.source.Some? ==>
          exists s :: s in w.sources && Takes(selection, s, uid) && IsSourceOf(s, item))
    && (item.vault.Some? <==> AnyVaultTaken(g, selection, w.vault, uid))
    && (item.vault.Some? ==>
          exists v :: v in w.vault && TakesVault(g, selection, v, uid) && PlaceOf(v) == item.vault.value)
    && (item.source.Some? && !item.unfinished ==> item.status.Some?)
    && (AnyStatus(selection, w.sources, uid) ==> item.status.Some?)
    && (item.vault.None? && item.status.Some? ==> AnyStatus(selection, w.sources, uid))
  }

  lemma ScanSays(g: Grammar, w: World, repo: string, selection: Selection, uid: string)
    requires Scan(g, w, repo, selection).Ok?
    ensures Says(g, selection, w, Get(Scan(g, w, repo, selection).value, uid), uid)
  {
    var bySources := ScanSources(g, repo, selection, w.sources).value;
    SourcesSay(g, repo, selection, w.sources, uid);
    VaultSays(g, repo, selection, bySources, w.vault, uid);
  }

  // Scanning what is left

  /** `a` says no more than `b`, and nothing else. */
  predicate Weaker(a: Found, b: Found) {
    && (a.meta.Some? ==> b.meta.Some? && SameName(a.meta.value, b.meta.value))
    && (a.status.Some? ==> b.status.Some? && a.status.value.state == b.status.value.state)
  }

  ghost predicate AllWeaker(a: FoundMap, b: FoundMap) {
    forall uid :: Weaker(Get(a, uid), Get(b, uid))
  }

  predicate SameFor(a: FoundMap, b: FoundMap, uid: string) {
    (uid in a <==> uid in b) && Get(a, uid) == Get(b, uid)
  }

  lemma WeakerMerges(a: Found, b: Found, meta: Meta, status: Option<Status>)
    requires Weaker(a, b) && Merge(b, meta, status).Ok?
    ensures Merge(a, meta, status).Ok? && Weaker(Merge(a, meta, status).value, Merge(b, meta, status).value)
  {
  }

  predicate LosesSource(sources: seq<Source>, dirs: set<string>, uid: string) {
    exists s :: s in sources && Carries(s, uid) && s.dir in dirs
  }

  predicate LosesPlace(vault: seq<VaultDir>, places: set<Place>, uid: string) {
    exists v :: v in vault && v.name == uid && PlaceOf(v) in places
  }

  /** One more directory of a run, known to both or to the fuller one alone. */
  lemma MergeKeepsWeaker(a: FoundMap, b: FoundMap, uid: string, x: Found, y: Found)
    requires AllWeaker(a, b) && Weaker(x, y) && Weaker(Get(a, uid), y)
    ensures AllWeaker(a[uid := x], b[uid := y]) && AllWeaker(a, b[uid := y])
  {
    var c, d := a[uid := x], b[uid := y];
    forall u
      ensures Weaker(Get(c, u), Get(d, u))
    {
      assert Weaker(Get(a, u), Get(b, u));
    }
    forall u
      ensures Weaker(Get(a, u), Get(d, u))
    {
      assert Weaker(Get(a, u), Get(b, u));
    }
  }

  lemma AbsorbWeaker(g: Grammar, repo: string, selection: Selection, a: FoundMap, b: FoundMap, s: Source)
    requires AllWeaker(a, b) && AbsorbSource(g, repo, selection, b, s).Ok?
    ensures AbsorbSource(g, repo, selection, a, s).Ok?
    ensures AllWeaker(AbsorbSource(g, repo, selection, a, s).value, AbsorbSource(g, repo, selection, b, s).value)
    ensures AllWeaker(a, AbsorbSource(g, repo, selection, b, s).value)
  {
    if s.content.Run? {
      var meta, status := s.content.meta, s.content.status;
      if Selected(selection, meta.runUid, meta.experiment) {
        var uid := meta.runUid;
        WeakerMerges(Get(a, uid), Get(b, uid), meta, status);
        MergeKeepsWeaker(a, b, uid,
          Merge(Get(a, uid), meta, status).value.(unfinished := status.None?, source := Some(s.dir)),
          Merge(Get(b, uid), meta, status).value.(unfinished := status.None?, source := Some(s.dir)));
      }
    }
  }

  lemma AbsorbVaultWeaker(g: Grammar, repo: string, selection: Selection, a: FoundMap, b: FoundMap, v: VaultDir)
    requires AllWeaker(a, b) && AbsorbVault(g, repo, selection, b, v).Ok?
    ensures AbsorbVault(g, repo, selection, a, v).Ok?
    ensures AllWeaker(AbsorbVault(g, repo, selection, a, v).value, AbsorbVault(g, repo, selection, b, v).value)
    ensures AllWeaker(a, AbsorbVault(g, repo, selection, b, v).value)
  {
    if v.meta.Some? && AbsorbVault(g, repo, selection, b, v).value != b {
      WeakerMerges(Get(a, v.name), Get(b, v.name), v.meta.value, v.status);
      MergeKeepsWeaker(a, b, v.name,
        Merge(Get(a, v.name), v.meta.value, v.status).value.(vault := Some(PlaceOf(v))),
        Merge(Get(b, v.name), v.meta.value, v.status).value.(vault := Some(PlaceOf(v))));
    }
  }

  lemma {:induction false} SourcesWithout(
    g: Grammar, repo: string, selection: Selection, sources: seq<Source>, dirs: set<string>)
    requires ScanSources(g, repo, selection, sources).Ok?
    ensures ScanSources(g, repo, selection, WithoutDirs(sources, dirs)).Ok?
    ensures AllWeaker(ScanSources(g, repo, selection, WithoutDirs(sources, dirs)).value,
                      ScanSources(g, repo, selection, sources).value)
  {
    if sources != [] {
      var before, last := sources[..|sources| - 1], sources[|sources| - 1];
      SourcesWithout(g, repo, selection, before, dirs);
      var left := WithoutDirs(before, dirs);
      AbsorbWeaker(g, repo, selection, ScanSources(g, repo, selection, left).value,
                   ScanSources(g, repo, selection, before).value, last);
      SourcesSnoc(g, repo, selection, left, last);
    }
  }

  lemma SourcesSnoc(g: Grammar, repo: string, selection: Selection, sources: seq<Source>, s: Source)
    requires ScanSources(g, repo, selection, sources).Ok?
    ensures ScanSources(g, repo, selection, sources + [s])
         == AbsorbSource(g, repo, selection, ScanSources(g, repo, selection, sources).value, s)
  {
    assert (sources + [s])[..|sources|] == sources;
  }

  lemma VaultSnoc(g: Grammar, repo: string, selection: Selection, found: FoundMap, vault: seq<VaultDir>, v: VaultDir)
    requires ScanVault(g, repo, selection, found, vault).Ok?
    ensures ScanVault(g, repo, selection, found, vault + [v])
         == AbsorbVault(g, repo, selection, ScanVault(g, repo, selection, found, vault).value, v)
  {
    assert (vault + [v])[..|vault|] == vault;
  }

  lemma {:induction false} VaultWithout(
    g: Grammar, repo: string, selection: Selection, a: FoundMap, b: FoundMap, vault: seq<VaultDir>, places: set<Place>)
    requires AllWeaker(a, b) && ScanVault(g, repo, selection, b, vault).Ok?
    ensures ScanVault(g, repo, selection, a, WithoutPlaces(vault, places)).Ok?
    ensures AllWeaker(ScanVault(g, repo, selection, a, WithoutPlaces(vault, places)).value,
                      ScanVault(g, repo, selection, b, vault).value)
  {
    if vault != [] {
      var before, last := vault[..|vault| - 1], vault[|vault| - 1];
      VaultWithout(g, repo, selection, a, b, before, places);
      var left := WithoutPlaces(before, places);
      var x, y := ScanVault(g, repo, selection, a, left).value, ScanVault(g, repo, selection, b, before).value;
      assert ScanVault(g, repo, selection, b, vault) == AbsorbVault(g, repo, selection, y, last);
      AbsorbVaultWeaker(g, repo, selection, x, y, last);
      assert WithoutPlaces(vault, places) == if PlaceOf(last) in places then left else left + [last];
      assert ScanVault(g, repo, selection, a, left + [last]) == AbsorbVault(g, repo, selection, x, last) by {
        VaultSnoc(g, repo, selection, a, left, last);
      }
    }
  }

  // Runs that lose nothing

  lemma LostEarlier(sources: seq<Source>, dirs: set<string>, uid: string)
    requires sources != [] && !LosesSource(sources, dirs, uid)
    ensures !LosesSource(sources[..|sources| - 1], dirs, uid)
    ensures Carries(sources[|sources| - 1], uid) ==> sources[|sources| - 1].dir !in dirs
  {
    assert forall s :: s in sources[..|sources| - 1] ==> s in sources;
    assert sources[|sources| - 1] in sources;
  }

  lemma PlaceLostEarlier(vault: seq<VaultDir>, places: set<Place>, uid: string)
    requires vault != [] && !LosesPlace(vault, places, uid)
    ensures !LosesPlace(vault[..|vault| - 1], places, uid)
    ensures vault[|vault| - 1].name == uid ==> PlaceOf(vault[|vault| - 1]) !in places
  {
    assert forall v :: v in vault[..|vault| - 1] ==> v in vault;
    assert vault[|vault| - 1] in vault;
  }

  lemma AbsorbSame(g: Grammar, repo: string, selection: Selection, a: FoundMap, b: FoundMap, s: Source, uid: string)
    requires SameFor(a, b, uid) && AbsorbSource(g, repo, selection, a, s).Ok? &&
        AbsorbSource(g, repo, selection, b, s).Ok?
    ensures SameFor(AbsorbSource(g, repo, selection, a, s).value, AbsorbSource(g, repo, selection, b, s).value, uid)
    ensures !Carries(s, uid) ==> SameFor(a, AbsorbSource(g, repo, selection, b, s).value, uid)
  {
  }

  /** A run that loses no source directory is found as before. */
  lemma {:induction false} SameSources(
    g: Grammar, repo: string, selection: Selection, sources: seq<Source>, dirs: set<string>, uid: string)
    requires ScanSources(g, repo, selection, sources).Ok? && !LosesSource(sources, dirs, uid)
    requires ScanSources(g, repo, selection, WithoutDirs(sources, dirs)).Ok?
    ensures SameFor(ScanSources(g, repo, selection, WithoutDirs(sources, dirs)).value,
                    ScanSources(g, repo, selection, sources).value, uid)
  {
    if sources != [] {
      var before, last := sources[..|sources| - 1], sources[|sources| - 1];
      LostEarlier(sources, dirs, uid);
      SourcesWithout(g, repo, selection, before, dirs);
      SameSources(g, repo, selection, before, dirs, uid);
      var left := WithoutDirs(before, dirs);
      var x, y := ScanSources(g, repo, selection, left).value, ScanSources(g, repo, selection, before).value;
      assert ScanSources(g, repo, selection, sources) == AbsorbSource(g, repo, selection, y, last);
      assert WithoutDirs(sources, dirs) == if last.dir in dirs then left else left + [last];
      assert ScanSources(g, repo, selection, left + [last]) == AbsorbSource(g, repo, selection, x, last) by {
        SourcesSnoc(g, repo, selection, left, last);
      }
      AbsorbWeaker(g, repo, selection, x, y, last);
      AbsorbSame(g, repo, selection, x, y, last, uid);
    }
  }

  lemma AbsorbVaultSame(
    g: Grammar, repo: string, selection: Selection, a: FoundMap, b: FoundMap, v: VaultDir, uid: string)
    requires SameFor(a, b, uid) && AbsorbVault(g, repo, selection, a, v).Ok? &&
        AbsorbVault(g, repo, selection, b, v).Ok?
    ensures SameFor(AbsorbVault(g, repo, selection, a, v).value, AbsorbVault(g, repo, selection, b, v).value, uid)
    ensures v.name != uid ==> SameFor(a, AbsorbVault(g, repo, selection, b, v).value, uid)
  {
  }

  /** A run that loses no vault directory either is found as before. */
  lemma {:induction false} SameVault(
    g: Grammar, repo: string, selection: Selection, a: FoundMap, b: FoundMap, vault: seq<VaultDir>, places: set<Place>,
    uid: string)
    requires AllWeaker(a, b) && SameFor(a, b, uid)
    requires ScanVault(g, repo, selection, b, vault).Ok? && !LosesPlace(vault, places, uid)
    requires ScanVault(g, repo, selection, a, WithoutPlaces(vault, places)).Ok?
    ensures SameFor(ScanVault(g, repo, selection, a, WithoutPlaces(vault, places)).value,
                    ScanVault(g, repo, selection, b, vault).value, uid)
  {
    if vault != [] {
      var before, last := vault[..|vault| - 1], vault[|vault| - 1];
      PlaceLostEarlier(vault, places, uid);
      VaultWithout(g, repo, selection, a, b, before, places);
      SameVault(g, repo, selection, a, b, before, places, uid);
      var left := WithoutPlaces(before, places);
      var x, y := ScanVault(g, repo, selection, a, left).value, ScanVault(g, repo, selection, b, before).value;
      assert ScanVault(g, repo, selection, b, vault) == AbsorbVault(g, repo, selection, y, last);
      assert WithoutPlaces(vault, places) == if PlaceOf(last) in places then left else left + [last];
      assert ScanVault(g, repo, selection, a, left + [last]) == AbsorbVault(g, repo, selection, x, last) by {
        VaultSnoc(g, repo, selection, a, left, last);
      }
      AbsorbVaultWeaker(g, repo, selection, x, y, last);
      AbsorbVaultSame(g, repo, selection, x, y, last, uid);
    }
  }

  /** Scanning what is left finds no more than scanning everything. */
  lemma ScanWithout(
    g: Grammar, w: World, left: World, repo: string, selection: Selection, dirs: set<string>, places: set<Place>)
    requires Scan(g, w, repo, selection).Ok?
    requires left.sources == WithoutDirs(w.sources, dirs) && left.vault == WithoutPlaces(w.vault, places)
    ensures Scan(g, left, repo, selection).Ok?
    ensures AllWeaker(Scan(g, left, repo, selection).value, Scan(g, w, repo, selection).value)
  {
    SourcesWithout(g, repo, selection, w.sources, dirs);
    VaultWithout(g, repo, selection, ScanSources(g, repo, selection, left.sources).value,
                 ScanSources(g, repo, selection, w.sources).value, w.vault, places);
  }

  /** A run that loses no source keeps its source, and is found as before if it loses no vault directory either. */
  lemma ScanKeeps(
    g: Grammar, w: World, left: World, repo: string, selection: Selection, dirs: set<string>, places: set<Place>,
    uid: string)
    requires Scan(g, w, repo, selection).Ok? && !LosesSource(w.sources, dirs, uid)
    requires left.sources == WithoutDirs(w.sources, dirs) && left.vault == WithoutPlaces(w.vault, places)
    ensures Scan(g, left, repo, selection).Ok?
    ensures var a, b := Get(Scan(g, left, repo, selection).value, uid), Get(Scan(g, w, repo, selection).value, uid);
            a.source == b.source && a.unfinished == b.unfinished
    ensures !LosesPlace(w.vault, places, uid) ==>
              SameFor(Scan(g, left, repo, selection).value, Scan(g, w, repo, selection).value, uid)
  {
    ScanWithout(g, w, left, repo, selection, dirs, places);
    SourcesWithout(g, repo, selection, w.sources, dirs);
    SameSources(g, repo, selection, w.sources, dirs, uid);
    var a, b := ScanSources(g, repo, selection, left.sources).value, ScanSources(g, repo, selection, w.sources).value;
    VaultSays(g, repo, selection, a, left.vault, uid);
    VaultSays(g, repo, selection, b, w.vault, uid);
    if !LosesPlace(w.vault, places, uid) {
      SameVault(g, repo, selection, a, b, w.vault, places, uid);
    }
  }

  // Selecting one run by its uid

  function Only(uid: string): Selection {
    RunUids([uid])
  }

  /** A selection takes every copy of a run, and no directory without `run.json` names it. */
  ghost predicate TakesAll(g: Grammar, selection: Selection, w: World, uid: string) {
    && (forall s :: s in w.sources && Carries(s, uid) ==> Takes(selection, s, uid))
    && (forall v :: v in w.vault && v.name == uid ==> TakesVault(g, selection, v, uid))
    && (forall s :: s in w.sources && s.content.Legacy? ==> !SelectsLegacy(Only(uid), s.content))
  }

  /** `one` is `all` seen through a selection of `uid` alone. */
  ghost predicate Narrowed(all: FoundMap, one: FoundMap, uid: string) {
    one.Keys <= {uid} && SameFor(one, all, uid)
  }

  lemma {:induction false} NarrowSources(
    g: Grammar, repo: string, selection: Selection, sources: seq<Source>, uid: string)
    requires ScanSources(g, repo, selection, sources).Ok?
    requires forall s :: s in sources && Carries(s, uid) ==> Takes(selection, s, uid)
    requires forall s :: s in sources && s.content.Legacy? ==> !SelectsLegacy(Only(uid), s.content)
    ensures ScanSources(g, repo, Only(uid), sources).Ok?
    ensures Narrowed(ScanSources(g, repo, selection, sources).value, ScanSources(g, repo, Only(uid), sources).value,
        uid)
  {
    if sources != [] {
      var before, last := sources[..|sources| - 1], sources[|sources| - 1];
      assert last in sources && forall s :: s in before ==> s in sources;
      NarrowSources(g, repo, selection, before, uid);
    }
  }

  lemma {:induction false} NarrowVault(
    g: Grammar, repo: string, selection: Selection, all: FoundMap, one: FoundMap, vault: seq<VaultDir>, uid: string)
    requires Narrowed(all, one, uid) && ScanVault(g, repo, selection, all, vault).Ok?
    requires forall v :: v in vault && v.name == uid ==> TakesVault(g, selection, v, uid)
    ensures ScanVault(g, repo, Only(uid), one, vault).Ok?
    ensures Narrowed(ScanVault(g, repo, selection, all, vault).value, ScanVault(g, repo, Only(uid), one, vault).value,
        uid)
  {
    if vault != [] {
      var before, last := vault[..|vault| - 1], vault[|vault| - 1];
      assert last in vault && forall v :: v in before ==> v in vault;
      NarrowVault(g, repo, selection, all, one, before, uid);
    }
  }

  /** Selecting the run by its uid then finds it as the selection did. */
  lemma NarrowToOne(g: Grammar, w: World, repo: string, selection: Selection, uid: string)
    requires Scan(g, w, repo, selection).Ok? && TakesAll(g, selection, w, uid)
    ensures Scan(g, w, repo, Only(uid)).Ok?
    ensures SameFor(Scan(g, w, repo, Only(uid)).value, Scan(g, w, repo, selection).value, uid)
  {
    NarrowSources(g, repo, selection, w.sources, uid);
    NarrowVault(g, repo, selection, ScanSources(g, repo, selection, w.sources).value,
                ScanSources(g, repo, Only(uid), w.sources).value, w.vault, uid);
  }

  lemma {:induction false} NoSelectedLegacy(g: Grammar, repo: string, selection: Selection, sources: seq<Source>)
    requires ScanSources(g, repo, selection, sources).Ok?
    ensures forall s :: s in sources && s.content.Legacy? ==> !SelectsLegacy(selection, s.content)
  {
    if sources != [] {
      NoSelectedLegacy(g, repo, selection, sources[..|sources| - 1]);
      assert sources == sources[..|sources| - 1] + [sources[|sources| - 1]];
    }
  }
}
