/**
 `runvault delete`: how targets are resolved, and the three stages that remove
 one run: tombstone, aggregation copy, source.

 The file tree of one repository is a value: the run directories below
 `results/` and below the repository's vault root, in the order they are
 scanned, the `by-slug` links, and the lines of `_deleted.jsonl`.
*/
module Deletion {
  import opened Wrappers
  import opened TextOrder

  datatype State = Failed | Finished

  datatype Meta = Meta(repoId: string, runUid: string, experiment: string, runSlug: string)

  datatype Status = Status(runUid: string, state: State)

  /** What a lock record says of its process at the moment of planning. */
  datatype Liveness = Running | Stale

  datatype SourceDir =
    | Run(meta: Meta, status: Option<Status>, lock: Option<Liveness>)
    | Legacy(experiment: Option<string>, status: Option<Status>)

  datatype Source = Source(dir: string, content: SourceDir)

  /**
   A directory `<experiment>/<name>` of the vault; `meta` is absent when its files cannot be read
   through its receipt.
  */
  datatype VaultDir = VaultDir(experiment: string, name: string, meta: Option<Meta>, status: Option<Status>)

  datatype Place = Place(experiment: string, name: string)

  datatype Link = Link(experiment: string, slug: string, uid: string)

  /** `stamp` stands for the time, host and version of the deletion. */
  datatype Tombstone = Tombstone(runUid: string, repoId: string, experiment: string, runSlug: string, state: State,
      reason: string, stamp: string)

  datatype Line = Blank | Garbage | Recorded(tombstone: Tombstone)

  datatype World = World(sources: seq<Source>, vault: seq<VaultDir>, links: set<Link>, lines: seq<Line>)

  datatype Error =
    | BadArgument | BadTombstone | WrongRepository | BadIdentifier | Disagreement | LegacyRun
    | Misplaced | Unknown | StillRunning | StaleLock | NoState | Succeeded

  /** The identifier grammars, and the test for blank text. */
  datatype Grammar = Grammar(runUid: string -> bool, slug: string -> bool, runSlug: string -> bool,
      blank: string -> bool)

  datatype Selection = RunUids(uids: seq<string>) | FailedExperiment(experiment: string)

  /** Who deletes, and how. */
  datatype Request = Request(selection: Selection, reason: string, stamp: string, includeSucceeded: bool)

  // The tombstone file

  predicate ValidTombstone(g: Grammar, repo: string, t: Tombstone) {
    t.repoId == repo && g.runUid(t.runUid) && g.slug(t.experiment) && g.runSlug(t.runSlug) && !g.blank(t.reason)
  }

  /** The tombstones by uid; the first line for a uid counts. */
  function Read(g: Grammar, repo: string, lines: seq<Line>): Result<map<string, Tombstone>, Error> {
    if lines == [] then Ok(map[])
    else
      var last := |lines| - 1;
      var before := Read(g, repo, lines[..last]);
      if before.Err? || lines[last].Blank? then before
      else if lines[last].Garbage? || !ValidTombstone(g, repo, lines[last].tombstone) then Err(BadTombstone)
      else
        var t := lines[last].tombstone;
        if t.runUid in before.value then before else Ok(before.value[t.runUid := t])
  }

  predicate Records(lines: seq<Line>, uid: string) {
    exists l :: l in lines && l.Recorded? && l.tombstone.runUid == uid
  }

  lemma {:induction false} ReadFindsEveryRecord(g: Grammar, repo: string, lines: seq<Line>, uid: string)
    requires Read(g, repo, lines).Ok?
    ensures uid in Read(g, repo, lines).value <==> Records(lines, uid)
    ensures uid in Read(g, repo, lines).value ==> ValidTombstone(g, repo, Read(g, repo, lines).value[uid])
    ensures uid in Read(g, repo, lines).value ==> Read(g, repo, lines).value[uid].runUid == uid
  {
    if lines != [] {
      var last := |lines| - 1;
      ReadFindsEveryRecord(g, repo, lines[..last], uid);
      assert lines == lines[..last] + [lines[last]];
    }
  }

  lemma ReadAppended(g: Grammar, repo: string, lines: seq<Line>, t: Tombstone)
    requires Read(g, repo, lines).Ok? && ValidTombstone(g, repo, t) && t.runUid !in Read(g, repo, lines).value
    ensures Read(g, repo, lines + [Recorded(t)]) == Ok(Read(g, repo, lines).value[t.runUid := t])
  {
    assert (lines + [Recorded(t)])[..|lines|] == lines;
  }

  // Scanning

  datatype Found = Found(meta: Option<Meta>, status: Option<Status>, source: Option<string>, vault: Option<Place>,
      unfinished: bool)

  const NOTHING := Found(None, None, None, None, false)

  predicate Selected(selection: Selection, uid: string, experiment: string) {
    match selection
    case RunUids(uids) => uid in uids
    case FailedExperiment(wanted) => wanted == experiment
  }

  /** A directory without `run.json` that the selection would have to delete. */
  predicate SelectsLegacy(selection: Selection, content: SourceDir)
    requires content.Legacy?
  {
    content.status.Some? &&
    match selection
    case RunUids(uids) => content.status.value.runUid in uids
    case FailedExperiment(wanted) => content.experiment == Some(wanted) && content.status.value.state.Failed?
  }

  predicate ValidMeta(g: Grammar, meta: Meta) {
    g.slug(meta.experiment) && g.runUid(meta.runUid) && g.runSlug(meta.runSlug)
  }

  predicate MetasAgree(existing: Option<Meta>, meta: Meta) {
    existing.None? ||
    (existing.value.runUid == meta.runUid && existing.value.runSlug == meta.runSlug &&
        existing.value.experiment == meta.experiment)
  }

  predicate StatusesAgree(existing: Option<Status>, meta: Meta, status: Option<Status>) {
    status.None? ||
    (meta.runUid == status.value.runUid && (existing.None? || existing.value.state == status.value.state))
  }

  /** What is known of a run once one more of its directories has been read. */
  function Merge(item: Found, meta: Meta, status: Option<Status>): Result<Found, Error> {
    if !MetasAgree(item.meta, meta) || !StatusesAgree(item.status, meta, status) then Err(Disagreement)
    else Ok(item.(meta := Some(meta), status := if status.Some? then status else item.status))
  }

  type FoundMap = map<string, Found>

  function Get(found: FoundMap, uid: string): Found {
    if uid in found then found[uid] else NOTHING
  }

  function AbsorbSource(
    g: Grammar, repo: string, selection: Selection, found: FoundMap, s: Source): Result<FoundMap, Error> {
    match s.content
    case Legacy(_, _) => if SelectsLegacy(selection, s.content) then Err(LegacyRun) else Ok(found)
    case Run(meta, status, _) =>
      if !Selected(selection, meta.runUid, meta.experiment) then Ok(found)
      else if meta.repoId != repo then Err(WrongRepository)
      else if !ValidMeta(g, meta) then Err(BadIdentifier)
      else match Merge(Get(found, meta.runUid), meta, status)
        case Err(e) => Err(e)
        case Ok(item) => Ok(found[meta.runUid := item.(unfinished := status.None?, source := Some(s.dir))])
  }

  function ScanSources(g: Grammar, repo: string, selection: Selection, sources: seq<Source>): Result<FoundMap, Error> {
    if sources == [] then Ok(map[])
    else
      var last := |sources| - 1;
      match ScanSources(g, repo, selection, sources[..last])
      case Err(e) => Err(e)
      case Ok(found) => AbsorbSource(g, repo, selection, found, sources[last])
  }

  function AbsorbVault(
    g: Grammar, repo: string, selection: Selection, found: FoundMap, v: VaultDir): Result<FoundMap, Error> {
    if v.name == "by-slug" || !Selected(selection, v.name, v.experiment) || !g.runUid(v.name) then Ok(found)
    else if v.meta.None? then Err(NoState)
    else if v.meta.value.repoId != repo || v.meta.value.runUid != v.name then Err(Misplaced)
    else if !ValidMeta(g, v.meta.value) then Err(BadIdentifier)
    else match Merge(Get(found, v.name), v.meta.value, v.status)
      case Err(e) => Err(e)
      case Ok(item) => Ok(found[v.name := item.(vault := Some(Place(v.experiment, v.name)))])
  }

  function ScanVault(
    g: Grammar, repo: string, selection: Selection, found: FoundMap, vault: seq<VaultDir>): Result<FoundMap, Error> {
    if vault == [] then Ok(found)
    else
      var last := |vault| - 1;
      match ScanVault(g, repo, selection, found, vault[..last])
      case Err(e) => Err(e)
      case Ok(before) => AbsorbVault(g, repo, selection, before, vault[last])
  }

  // Planning

  datatype DeletePlan = DeletePlan(
    runUid: string, runSlug: string, experiment: string,
    sourceDir: Option<string>, vaultPlace: Option<Place>,
    tombstone: Tombstone, alreadyTombstoned: bool)

  /** The lock of the directory a scan kept. */
  function LockAt(sources: seq<Source>, dir: string): Option<Liveness> {
    if sources == [] then None
    else if sources[0].dir == dir && sources[0].content.Run? then sources[0].content.lock
    else LockAt(sources[1..], dir)
  }

  function EligibleState(
    item: Found, lock: Option<Liveness>, includeSucceeded: bool, alreadyTombstoned: bool): Result<State, Error> {
    if item.unfinished then
      match lock
      case None => Err(NoState)
      case Some(Running) => Err(StillRunning)
      case Some(Stale) => Err(StaleLock)
    else match item.status
      case None => Err(NoState)
      case Some(status) =>
        if status.state.Failed? then Ok(Failed)
        else if includeSucceeded || alreadyTombstoned then Ok(Finished)
        else Err(Succeeded)
  }

  function PlanOne(
    repo: string, request: Request, uid: string, item: Found, lock: Option<Liveness>,
    existing: Option<Tombstone>): Result<DeletePlan, Error> {
    match item.meta
    case Some(meta) =>
      (match EligibleState(item, lock, request.includeSucceeded, existing.Some?)
       case Err(e) => Err(e)
       case Ok(state) =>
         var t := if existing.Some? then existing.value
                  else Tombstone(uid, repo, meta.experiment, meta.runSlug, state, request.reason, request.stamp);
         Ok(DeletePlan(uid, meta.runSlug, meta.experiment, item.source, item.vault, t, existing.Some?)))
    case None =>
      match existing
      case None => Err(Unknown)
      case Some(t) => Ok(DeletePlan(uid, t.runSlug, t.experiment, item.source, item.vault, t, true))
  }

  function Existing(tombstones: map<string, Tombstone>, uid: string): Option<Tombstone> {
    if uid in tombstones then Some(tombstones[uid]) else None
  }

  function PlanUid(
    w: World, repo: string, request: Request, found: FoundMap, tombstones: map<string, Tombstone>,
    uid: string): Result<DeletePlan, Error> {
    var item := Get(found, uid);
    var lock := if item.source.Some? then LockAt(w.sources, item.source.value) else None;
    PlanOne(repo, request, uid, item, lock, Existing(tombstones, uid))
  }

  function PlanEach(
    w: World, repo: string, request: Request, found: FoundMap, tombstones: map<string, Tombstone>,
    uids: seq<string>): Result<seq<DeletePlan>, Error> {
    if uids == [] then Ok([])
    else
      var last := |uids| - 1;
      match PlanEach(w, repo, request, found, tombstones, uids[..last])
      case Err(e) => Err(e)
      case Ok(plans) =>
        match PlanUid(w, repo, request, found, tombstones, uids[last])
        case Err(e) => Err(e)
        case Ok(p) => Ok(plans + [p])
  }

  predicate ValidRequest(g: Grammar, repo: string, request: Request) {
    && g.slug(repo)
    && !g.blank(request.reason)
    && match request.selection
       case RunUids(uids) => uids != [] && forall uid :: uid in uids ==> g.runUid(uid)
       case FailedExperiment(experiment) => g.slug(experiment)
  }

  predicate IsFailed(item: Found) {
    item.status.Some? && item.status.value.state.Failed?
  }

  /** The uids a request is about. */
  function Targets(selection: Selection, found: FoundMap): set<string> {
    match selection
    case RunUids(uids) => set uid | uid in uids
    case FailedExperiment(_) => set uid | uid in found && IsFailed(found[uid])
  }

  /** Everything found of the selected runs. */
  function Scan(g: Grammar, w: World, repo: string, selection: Selection): Result<FoundMap, Error> {
    match ScanSources(g, repo, selection, w.sources)
    case Err(e) => Err(e)
    case Ok(found) => ScanVault(g, repo, selection, found, w.vault)
  }

  /** One plan for each target in uid order, or the first error. */
  ghost function Plan(g: Grammar, w: World, repo: string, request: Request): Result<seq<DeletePlan>, Error> {
    if !ValidRequest(g, repo, request) then Err(BadArgument)
    else match Read(g, repo, w.lines)
      case Err(e) => Err(e)
      case Ok(tombstones) =>
        match Scan(g, w, repo, request.selection)
        case Err(e) => Err(e)
        case Ok(found) => PlanEach(w, repo, request, found, tombstones, SortedKeys(Targets(request.selection, found)))
  }

  // Executing

  function PlaceOf(v: VaultDir): Place {
    Place(v.experiment, v.name)
  }

  function LinkOf(p: DeletePlan): Link {
    Link(p.experiment, p.runSlug, p.runUid)
  }

  function DirsOf(p: DeletePlan): set<string> {
    if p.sourceDir.Some? then {p.sourceDir.value} else {}
  }

  function PlacesOf(p: DeletePlan): set<Place> {
    if p.vaultPlace.Some? then {p.vaultPlace.value} else {}
  }

  /** The source directories that are left, in their order. */
  function WithoutDirs(sources: seq<Source>, dirs: set<string>): seq<Source> {
    if sources == [] then []
    else
      var last := |sources| - 1;
      var before := WithoutDirs(sources[..last], dirs);
      if sources[last].dir in dirs then before else before + [sources[last]]
  }

  /** The vault directories that are left, in their order. */
  function WithoutPlaces(vault: seq<VaultDir>, places: set<Place>): seq<VaultDir> {
    if vault == [] then []
    else
      var last := |vault| - 1;
      var before := WithoutPlaces(vault[..last], places);
      if PlaceOf(vault[last]) in places then before else before + [vault[last]]
  }

  function AppendTombstone(g: Grammar, w: World, p: DeletePlan): Result<World, Error> {
    if p.alreadyTombstoned then Ok(w)
    else match Read(g, p.tombstone.repoId, w.lines)
      case Err(e) => Err(e)
      case Ok(tombstones) =>
        if p.runUid in tombstones then Ok(w) else Ok(w.(lines := w.lines + [Recorded(p.tombstone)]))
  }

  /** Whether or not its plan is out of date, a run is buried by one valid line at most. */
  lemma BuriedOnce(g: Grammar, w: World, p: DeletePlan)
    requires Read(g, p.tombstone.repoId, w.lines).Ok? && p.tombstone.runUid == p.runUid
    requires ValidTombstone(g, p.tombstone.repoId, p.tombstone)
    ensures var after := AppendTombstone(g, w, p);
            && after.Ok? && (p.alreadyTombstoned || Records(after.value.lines, p.runUid))
            && (after.value == w ||
                (!Records(w.lines, p.runUid) && after.value == w.(lines := w.lines + [Recorded(p.tombstone)]) &&
                 Read(g, p.tombstone.repoId, after.value.lines).Ok?))
  {
    ReadFindsEveryRecord(g, p.tombstone.repoId, w.lines, p.runUid);
    if !p.alreadyTombstoned && !Records(w.lines, p.runUid) {
      ReadAppended(g, p.tombstone.repoId, w.lines, p.tombstone);
      assert Recorded(p.tombstone) in w.lines + [Recorded(p.tombstone)];
    }
  }

  function RemoveVault(w: World, p: DeletePlan): World {
    w.(vault := WithoutPlaces(w.vault, PlacesOf(p)), links := w.links - {LinkOf(p)})
  }

  function RemoveSource(w: World, p: DeletePlan): World {
    w.(sources := WithoutDirs(w.sources, DirsOf(p)))
  }

  /** One deletion up to its first `stages` stages: tombstone, vault, source. */
  function Execute(g: Grammar, w: World, p: DeletePlan, stages: nat): Result<World, Error> {
    if stages == 0 then Ok(w)
    else match AppendTombstone(g, w, p)
      case Err(e) => Err(e)
      case Ok(w1) =>
        var w2 := if stages >= 2 then RemoveVault(w1, p) else w1;
        Ok(if stages >= 3 then RemoveSource(w2, p) else w2)
  }

  /** The first `stages` stages of the planned deletions, one plan after the other; a failed append ends them. */
  function ExecuteAll(g: Grammar, w: World, plans: seq<DeletePlan>, stages: nat): World
    decreases |plans|
  {
    if plans == [] then w
    else match Execute(g, w, plans[0], if stages < 3 then stages else 3)
      case Err(_) => w
      case Ok(after) => if stages <= 3 then after else ExecuteAll(g, after, plans[1..], stages - 3)
  }

  // What is left

  lemma {:induction false} DirsLeft(sources: seq<Source>, dirs: set<string>)
    ensures forall s :: s in WithoutDirs(sources, dirs) <==> s in sources && s.dir !in dirs
  {
    if sources != [] {
      var last := |sources| - 1;
      DirsLeft(sources[..last], dirs);
      assert sources == sources[..last] + [sources[last]];
    }
  }

  lemma {:induction false} PlacesLeft(vault: seq<VaultDir>, places: set<Place>)
    ensures forall v :: v in WithoutPlaces(vault, places) <==> v in vault && PlaceOf(v) !in places
  {
    if vault != [] {
      var last := |vault| - 1;
      PlacesLeft(vault[..last], places);
      assert vault == vault[..last] + [vault[last]];
    }
  }

  lemma OneMoreDir(sources: seq<Source>, s: Source, dirs: set<string>)
    ensures var before := WithoutDirs(sources, dirs);
            WithoutDirs(sources + [s], dirs) == if s.dir in dirs then before else before + [s]
  {
    assert (sources + [s])[..|sources|] == sources;
  }

  lemma OneMorePlace(vault: seq<VaultDir>, v: VaultDir, places: set<Place>)
    ensures var before := WithoutPlaces(vault, places);
            WithoutPlaces(vault + [v], places) == if PlaceOf(v) in places then before else before + [v]
  {
    assert (vault + [v])[..|vault|] == vault;
  }

  lemma {:induction false} DirsTwice(sources: seq<Source>, a: set<string>, b: set<string>)
    ensures WithoutDirs(WithoutDirs(sources, a), b) == WithoutDirs(sources, a + b)
  {
    if sources != [] {
      var last := |sources| - 1;
      DirsTwice(sources[..last], a, b);
      OneMoreDir(WithoutDirs(sources[..last], a), sources[last], b);
    }
  }

  lemma {:induction false} PlacesTwice(vault: seq<VaultDir>, a: set<Place>, b: set<Place>)
    ensures WithoutPlaces(WithoutPlaces(vault, a), b) == WithoutPlaces(vault, a + b)
  {
    if vault != [] {
      var last := |vault| - 1;
      PlacesTwice(vault[..last], a, b);
      OneMorePlace(WithoutPlaces(vault[..last], a), vault[last], b);
    }
  }

  lemma NothingRemoved(w: World)
    ensures WithoutDirs(w.sources, {}) == w.sources && WithoutPlaces(w.vault, {}) == w.vault
  {
    NoDirs(w.sources);
    NoPlaces(w.vault);
  }

  lemma {:induction false} NoDirs(sources: seq<Source>)
    ensures WithoutDirs(sources, {}) == sources
  {
    if sources != [] {
      NoDirs(sources[..|sources| - 1]);
      assert sources == sources[..|sources| - 1] + [sources[|sources| - 1]];
    }
  }

  lemma {:induction false} NoPlaces(vault: seq<VaultDir>)
    ensures WithoutPlaces(vault, {}) == vault
  {
    if vault != [] {
      NoPlaces(vault[..|vault| - 1]);
      assert vault == vault[..|vault| - 1] + [vault[|vault| - 1]];
    }
  }
}
