/**
 What a plan of `runvault delete` says of each run, and why a request is refused,
 both read off the repository.
*/
module DeletionRefusals {
  import opened Wrappers
  import opened TextOrder
  import opened Deletion
  import opened DeletionScan
  import opened DeletionPlans

  // What is planned

  ghost predicate SaysTombstone(g: Grammar, w: World, repo: string, request: Request, p: DeletePlan) {
    var copies := Copies(g, request.selection, w, p.runUid);
    if IsBuried(w.lines, p.runUid) then
      p.alreadyTombstoned && exists i: nat :: FirstRecord(w.lines, p.runUid, i) && w.lines[i].tombstone == p.tombstone
    else
      && !p.alreadyTombstoned
      && p.tombstone.runUid == p.runUid && p.tombstone.repoId == repo
      && p.tombstone.experiment == p.experiment && p.tombstone.runSlug == p.runSlug
      && p.tombstone.reason == request.reason && p.tombstone.stamp == request.stamp
      && HasState(copies, p.tombstone.state)
  }

  /** Its name is the copies', or the tombstone's when nothing else is left. */
  ghost predicate SaysName(copies: set<Copy>, p: DeletePlan) {
    && (forall c :: c in copies ==> c.meta.runSlug == p.runSlug && c.meta.experiment == p.experiment)
    && (copies == {} ==> p.runSlug == p.tombstone.runSlug && p.experiment == p.tombstone.experiment)
  }

  /** It takes the last source directory and the last vault directory. */
  ghost predicate SaysWhere(g: Grammar, selection: Selection, w: World, p: DeletePlan) {
    && (match p.sourceDir
        case None => forall i :: 0 <= i < |w.sources| ==> !IsSourceCopy(selection, w.sources[i], p.runUid)
        case Some(dir) => exists i: nat :: LastSource(selection, w.sources, p.runUid, i) && w.sources[i].dir == dir)
    && (match p.vaultPlace
        case None => forall i :: 0 <= i < |w.vault| ==> !IsVaultCopy(g, selection, w.vault[i], p.runUid)
        case Some(place) =>
          exists i: nat :: LastVault(g, selection, w.vault, p.runUid, i) && PlaceOf(w.vault[i]) == place)
  }

  ghost predicate PlanSays(g: Grammar, w: World, repo: string, request: Request, p: DeletePlan) {
    && IsTarget(g, request.selection, w, p.runUid)
    && SaysTombstone(g, w, repo, request, p)
    && SaysName(Copies(g, request.selection, w, p.runUid), p)
    && SaysWhere(g, request.selection, w, p)
  }

  lemma UidPlanSays(
    g: Grammar, w: World, repo: string, request: Request, found: FoundMap, tombstones: map<string, Tombstone>,
    uid: string, p: DeletePlan)
    requires Known(g, request.selection, w.sources, w.vault, uid, Get(found, uid))
    requires RecordedAs(w.lines, uid, Existing(tombstones, uid)) && IsTarget(g, request.selection, w, uid)
    requires PlanUid(w, repo, request, found, tombstones, uid) == Ok(p)
    ensures p.runUid == uid && PlanSays(g, w, repo, request, p)
  {
    var item, copies := Get(found, uid), Copies(g, request.selection, w, uid);
    BuriedIffRecorded(w.lines, uid, Existing(tombstones, uid));
    StateIsSummed(item, copies, Failed);
    StateIsSummed(item, copies, Finished);
    NameIsSummed(item, copies);
  }

  lemma NameIsSummed(item: Found, copies: set<Copy>)
    requires Sums(item, copies)
    ensures forall c :: c in copies ==>
              c.meta.runSlug == item.meta.value.runSlug && c.meta.experiment == item.meta.value.experiment
  {
    forall c | c in copies
      ensures c.meta.runSlug == item.meta.value.runSlug && c.meta.experiment == item.meta.value.experiment
    {
      assert Agree(c, Copy(item.meta.value, item.status));
    }
  }

  lemma {:induction false} EachPlanIs(
    w: World, repo: string, request: Request, found: FoundMap, tombstones: map<string, Tombstone>, uids: seq<string>,
    i: nat)
    requires PlanEach(w, repo, request, found, tombstones, uids).Ok? && i < |uids|
    ensures |PlanEach(w, repo, request, found, tombstones, uids).value| == |uids|
    ensures PlanUid(w, repo, request, found, tombstones, uids[i]) ==
            Ok(PlanEach(w, repo, request, found, tombstones, uids).value[i])
  {
    var last := |uids| - 1;
    if last > 0 { EachPlanIs(w, repo, request, found, tombstones, uids[..last], if i < last then i else 0); }
  }

  /** One plan for each target, in ascending order of their uids, and each says of its run what the repository does. */
  lemma PlansSay(g: Grammar, w: World, repo: string, request: Request, plans: seq<DeletePlan>)
    requires Plan(g, w, repo, request) == Ok(plans)
    ensures forall i, j :: 0 <= i < j < |plans| ==> Before(plans[i].runUid, plans[j].runUid)
    ensures forall uid :: IsTarget(g, request.selection, w, uid) ==>
              exists i :: 0 <= i < |plans| && plans[i].runUid == uid
    ensures forall i :: 0 <= i < |plans| ==> PlanSays(g, w, repo, request, plans[i])
  {
    ReadIff(g, repo, w.lines);
    ScanIff(g, w, repo, request.selection);
    var tombstones, found := Read(g, repo, w.lines).value, Scan(g, w, repo, request.selection).value;
    var uids := SortedKeys(Targets(request.selection, found));
    assert uids == [] ==> plans == [];
    forall i | 0 <= i < |uids|
      ensures |plans| == |uids| && plans[i].runUid == uids[i] && PlanSays(g, w, repo, request, plans[i])
    {
      EachPlanIs(w, repo, request, found, tombstones, uids, i);
      TargetPlanned(g, w, repo, request, found, tombstones, uids, uids[i]);
      UidPlanSays(g, w, repo, request, found, tombstones, uids[i], plans[i]);
    }
    forall uid | IsTarget(g, request.selection, w, uid)
      ensures exists i :: 0 <= i < |plans| && plans[i].runUid == uid
    {
      assert Known(g, request.selection, w.sources, w.vault, uid, Get(found, uid));
      TargetIff(g, w, request.selection, found, uid);
      assert uid in KeySet(uids);
      var i :| 0 <= i < |uids| && uids[i] == uid;
      assert plans[i].runUid == uid;
    }
  }

  lemma TargetPlanned(
    g: Grammar, w: World, repo: string, request: Request, found: FoundMap, tombstones: map<string, Tombstone>,
    uids: seq<string>, uid: string)
    requires AllKnown(g, request.selection, w.sources, w.vault, found) && uid in uids
    requires forall u :: RecordedAs(w.lines, u, Existing(tombstones, u))
    requires KeySet(uids) == Targets(request.selection, found)
    ensures Known(g, request.selection, w.sources, w.vault, uid, Get(found, uid))
    ensures RecordedAs(w.lines, uid, Existing(tombstones, uid))
    ensures IsTarget(g, request.selection, w, uid)
  {
    assert uid in KeySet(uids);
    TargetIff(g, w, request.selection, found, uid);
  }

  // A run that succeeded

  lemma OneState(copies: set<Copy>)
    requires AllAgree(copies)
    ensures !(HasState(copies, Failed) && HasState(copies, Finished))
  {
    assert forall c, d :: c in copies && d in copies ==> Agree(c, d);
  }

  lemma PlannedMayGo(g: Grammar, w: World, repo: string, request: Request, uid: string)
    requires Plan(g, w, repo, request).Ok? && IsTarget(g, request.selection, w, uid)
    ensures AllAgree(Copies(g, request.selection, w, uid)) && MayGo(g, w, request, uid)
  {
    PlanIff(g, w, repo, request);
  }

  lemma GoesAsFailed(g: Grammar, w: World, request: Request, uid: string)
    requires MayGo(g, w, request, uid) && AllAgree(Copies(g, request.selection, w, uid))
    requires !request.includeSucceeded && !IsBuried(w.lines, uid)
    ensures HasState(Copies(g, request.selection, w, uid), Failed) &&
            !HasState(Copies(g, request.selection, w, uid), Finished)
  {
    OneState(Copies(g, request.selection, w, uid));
  }

  lemma OnePlanSays(g: Grammar, w: World, repo: string, request: Request, plans: seq<DeletePlan>, p: DeletePlan)
    requires Plan(g, w, repo, request) == Ok(plans) && p in plans
    ensures PlanSays(g, w, repo, request, p)
  {
    PlansSay(g, w, repo, request, plans);
  }

  lemma NewState(g: Grammar, w: World, repo: string, request: Request, p: DeletePlan)
    requires PlanSays(g, w, repo, request, p) && !IsBuried(w.lines, p.runUid)
    ensures HasState(Copies(g, request.selection, w, p.runUid), p.tombstone.state)
  {
  }

  /** A run that no tombstone records, whose success was not included, is planned only as one that failed. */
  lemma SuccessIsProtected(g: Grammar, w: World, repo: string, request: Request, plans: seq<DeletePlan>, p: DeletePlan)
    requires Plan(g, w, repo, request) == Ok(plans) && p in plans
    requires !request.includeSucceeded && !IsBuried(w.lines, p.runUid)
    ensures HasState(Copies(g, request.selection, w, p.runUid), Failed)
    ensures !HasState(Copies(g, request.selection, w, p.runUid), Finished) && p.tombstone.state == Failed
  {
    OnePlanSays(g, w, repo, request, plans, p);
    PlannedMayGo(g, w, repo, request, p.runUid);
    GoesAsFailed(g, w, request, p.runUid);
    NewState(g, w, repo, request, p);
  }

  /** One that finished, is not buried and was not to be included, stops the whole request. */
  lemma SuccessStopsTheRequest(g: Grammar, w: World, repo: string, request: Request, uid: string)
    requires IsTarget(g, request.selection, w, uid) && HasState(Copies(g, request.selection, w, uid), Finished)
    requires !request.includeSucceeded && !IsBuried(w.lines, uid)
    ensures Plan(g, w, repo, request).Err?
  {
    if Plan(g, w, repo, request).Ok? {
      PlannedMayGo(g, w, repo, request, uid);
      GoesAsFailed(g, w, request, uid);
    }
  }

  // Why a request is refused

  predicate OtherRepository(repo: string, selection: Selection, s: Source) {
    AsksSource(selection, s) && s.content.meta.repoId != repo
  }

  predicate BadlyNamed(g: Grammar, selection: Selection, w: World) {
    || (exists s :: s in w.sources && AsksSource(selection, s) && !WellNamed(g, s.content.meta))
    || (exists v :: v in w.vault && AsksVault(g, selection, v) && v.meta.Some? && !WellNamed(g, v.meta.value))
  }

  predicate OutOfPlace(g: Grammar, repo: string, selection: Selection, v: VaultDir) {
    AsksVault(g, selection, v) && v.meta.Some? && (v.meta.value.repoId != repo || v.meta.value.runUid != v.name)
  }

  /** A status of another run, or two copies of one run that tell different things. */
  ghost predicate Contradictory(g: Grammar, selection: Selection, w: World) {
    exists uid :: !AllAgree(Copies(g, selection, w, uid)) || exists c :: c in Copies(g, selection, w, uid) && Strays(c)
  }

  predicate Strays(c: Copy) {
    c.status.Some? && c.status.value.runUid != c.meta.runUid
  }

  /** The directory that is kept of a run without a status, and what its lock says. */
  ghost predicate KeptWithLock(selection: Selection, w: World, uid: string, lock: Option<Liveness>) {
    exists i: nat :: LastSource(selection, w.sources, uid, i) && w.sources[i].content.status.None?
                  && w.sources[i].content.lock == lock
  }

  ghost predicate NothingKnown(g: Grammar, selection: Selection, w: World, uid: string) {
    var copies := Copies(g, selection, w, uid);
    copies != {} &&
    if Unfinished(selection, w.sources, uid) then KeptWithLock(selection, w, uid, None)
    else !HasState(copies, Failed) && !HasState(copies, Finished)
  }

  /** What an error says of the repository or the request. */
  ghost predicate Reason(g: Grammar, w: World, repo: string, request: Request, e: Error) {
    var selection := request.selection;
    match e
    case BadArgument => !Acceptable(g, repo, request)
    case BadTombstone => exists l :: l in w.lines && !LineReads(g, repo, l)
    case WrongRepository => exists s :: s in w.sources && OtherRepository(repo, selection, s)
    case BadIdentifier => BadlyNamed(g, selection, w)
    case Disagreement => Contradictory(g, selection, w)
    case LegacyRun => exists s :: s in w.sources && s.content.Legacy? && !SourceFits(g, repo, selection, s)
    case Misplaced => exists v :: v in w.vault && OutOfPlace(g, repo, selection, v)
    case Unknown =>
      exists uid :: IsTarget(g, selection, w, uid) && Copies(g, selection, w, uid) == {} && !IsBuried(w.lines, uid)
    case StillRunning => exists uid :: IsTarget(g, selection, w, uid) && KeptWithLock(selection, w, uid, Some(Running))
    case StaleLock => exists uid :: IsTarget(g, selection, w, uid) && KeptWithLock(selection, w, uid, Some(Stale))
    case NoState =>
      || (exists v :: v in w.vault && AsksVault(g, selection, v) && v.meta.None?)
      || (exists uid :: IsTarget(g, selection, w, uid) && NothingKnown(g, selection, w, uid))
    case Succeeded =>
      exists uid :: IsTarget(g, selection, w, uid) && HasState(Copies(g, selection, w, uid), Finished) &&
                    !request.includeSucceeded && !IsBuried(w.lines, uid)
  }

  lemma MergeFailure(item: Found, copies: set<Copy>, c: Copy)
    requires Sums(item, copies) && AllAgree(copies) && Merge(item, c.meta, c.status).Err?
    ensures Merge(item, c.meta, c.status) == Err(Disagreement)
    ensures Strays(c) || !AllAgree(copies + {c})
  {
    MergeSums(item, copies, c);
  }

  lemma SourceCopiesGrow(selection: Selection, sources: seq<Source>, n: nat, uid: string)
    requires n <= |sources|
    ensures SourceCopies(selection, sources[..n], uid) <= SourceCopies(selection, sources, uid)
  {
    assert forall s :: s in sources[..n] ==> s in sources;
  }

  lemma VaultCopiesGrow(g: Grammar, selection: Selection, vault: seq<VaultDir>, n: nat, uid: string)
    requires n <= |vault|
    ensures VaultCopies(g, selection, vault[..n], uid) <= VaultCopies(g, selection, vault, uid)
  {
    assert forall v :: v in vault[..n] ==> v in vault;
  }

  lemma AgreementShrinks(few: set<Copy>, many: set<Copy>)
    requires few <= many && AllAgree(many)
    ensures AllAgree(few)
  {
  }

  /** Why a source directory is not taken in, for an error at the end of some first directories. */
  lemma AbsorbFailure(g: Grammar, w: World, repo: string, request: Request, n: nat, found: FoundMap)
    requires n < |w.sources|
    requires AllSourceKnown(request.selection, w.sources[..n], found)
    requires forall uid :: AllAgree(SourceCopies(request.selection, w.sources[..n], uid))
    requires AbsorbSource(g, repo, request.selection, found, w.sources[n]).Err?
    ensures Reason(g, w, repo, request, AbsorbSource(g, repo, request.selection, found, w.sources[n]).error)
  {
    var s, selection := w.sources[n], request.selection;
    assert s in w.sources;
    if s.content.Legacy? {
      NamedIsSelected(g, repo, selection, s);
    } else {
      var uid, c := s.content.meta.runUid, Copy(s.content.meta, s.content.status);
      AskedIsSelected(selection, uid, s.content.meta.experiment);
      if s.content.meta.repoId == repo && ValidMeta(g, s.content.meta) {
        assert SourceKnown(selection, w.sources[..n], uid, Get(found, uid));
        MergeFailure(Get(found, uid), SourceCopies(selection, w.sources[..n], uid), c);
        SourceCopiesGrow(selection, w.sources, n, uid);
        assert c in Copies(g, selection, w, uid);
        if AllAgree(Copies(g, selection, w, uid)) {
          AgreementShrinks(SourceCopies(selection, w.sources[..n], uid) + {c}, Copies(g, selection, w, uid));
        }
      }
    }
  }

  lemma AbsorbVaultFailure(g: Grammar, w: World, repo: string, request: Request, n: nat, found: FoundMap)
    requires n < |w.vault|
    requires AllKnown(g, request.selection, w.sources, w.vault[..n], found)
    requires forall uid :: AllAgree(BothCopies(g, request.selection, w.sources, w.vault[..n], uid))
    requires AbsorbVault(g, repo, request.selection, found, w.vault[n]).Err?
    ensures Reason(g, w, repo, request, AbsorbVault(g, repo, request.selection, found, w.vault[n]).error)
  {
    var v, selection := w.vault[n], request.selection;
    assert v in w.vault;
    var uid := v.name;
    AskedIsSelected(selection, uid, v.experiment);
    if v.meta.Some? && v.meta.value.repoId == repo && v.meta.value.runUid == uid && ValidMeta(g, v.meta.value) {
      var c := Copy(v.meta.value, v.status);
      var copies := BothCopies(g, selection, w.sources, w.vault[..n], uid);
      assert Known(g, selection, w.sources, w.vault[..n], uid, Get(found, uid));
      MergeFailure(Get(found, uid), copies, c);
      VaultCopiesGrow(g, selection, w.vault, n, uid);
      assert c in Copies(g, selection, w, uid);
      if AllAgree(Copies(g, selection, w, uid)) { AgreementShrinks(copies + {c}, Copies(g, selection, w, uid)); }
    }
  }

  lemma {:induction false} SourcesFailure(g: Grammar, w: World, repo: string, request: Request, n: nat)
    requires n <= |w.sources| && ScanSources(g, repo, request.selection, w.sources[..n]).Err?
    ensures Reason(g, w, repo, request, ScanSources(g, repo, request.selection, w.sources[..n]).error)
    decreases n
  {
    var m := n - 1;
    assert w.sources[..n][..m] == w.sources[..m];
    if ScanSources(g, repo, request.selection, w.sources[..m]).Err? {
      SourcesFailure(g, w, repo, request, m);
    } else {
      SourcesScanIff(g, repo, request.selection, w.sources[..m]);
      AbsorbFailure(g, w, repo, request, m, ScanSources(g, repo, request.selection, w.sources[..m]).value);
    }
  }

  lemma {:induction false} VaultFailure(g: Grammar, w: World, repo: string, request: Request, found: FoundMap, n: nat)
    requires ScanSources(g, repo, request.selection, w.sources) == Ok(found)
    requires n <= |w.vault| && ScanVault(g, repo, request.selection, found, w.vault[..n]).Err?
    ensures Reason(g, w, repo, request, ScanVault(g, repo, request.selection, found, w.vault[..n]).error)
    decreases n
  {
    var m := n - 1;
    assert w.vault[..n][..m] == w.vault[..m];
    if ScanVault(g, repo, request.selection, found, w.vault[..m]).Err? {
      VaultFailure(g, w, repo, request, found, m);
    } else {
      SourcesScanIff(g, repo, request.selection, w.sources);
      VaultScanIff(g, repo, request.selection, w.sources, w.vault[..m], found);
      AbsorbVaultFailure(g, w, repo, request, m, ScanVault(g, repo, request.selection, found, w.vault[..m]).value);
    }
  }

  lemma ScanFailure(g: Grammar, w: World, repo: string, request: Request)
    requires Scan(g, w, repo, request.selection).Err?
    ensures Reason(g, w, repo, request, Scan(g, w, repo, request.selection).error)
  {
    assert w.sources[..|w.sources|] == w.sources && w.vault[..|w.vault|] == w.vault;
    var found := ScanSources(g, repo, request.selection, w.sources);
    if found.Err? {
      SourcesFailure(g, w, repo, request, |w.sources|);
    } else {
      VaultFailure(g, w, repo, request, found.value, |w.vault|);
    }
  }

  lemma {:induction false} LockOfKept(sources: seq<Source>, i: nat)
    requires OneRunEach(sources) && i < |sources| && sources[i].content.Run?
    ensures LockAt(sources, sources[i].dir) == sources[i].content.lock
    decreases |sources|
  {
    if sources[0].dir == sources[i].dir {
      assert sources[0] in sources && sources[i] in sources;
    } else {
      assert forall s :: s in sources[1..] ==> s in sources;
      LockOfKept(sources[1..], i - 1);
    }
  }

  lemma KeptLock(selection: Selection, w: World, uid: string, item: Found)
    requires OneRunEach(w.sources) && KeepsSource(selection, w.sources, uid, item) && item.unfinished
    ensures item.source.Some? && KeptWithLock(selection, w, uid, LockAt(w.sources, item.source.value))
  {
    var i: nat :| LastSource(selection, w.sources, uid, i) && w.sources[i].dir == item.source.value
                  && item.unfinished == w.sources[i].content.status.None?;
    LockOfKept(w.sources, i);
  }

  /** The errors of one target, by what is known of it. */
  lemma PlanOneFailure(
    repo: string, request: Request, uid: string, item: Found, lock: Option<Liveness>, existing: Option<Tombstone>)
    requires PlanOne(repo, request, uid, item, lock, existing).Err?
    ensures var e := PlanOne(repo, request, uid, item, lock, existing).error;
            match e
            case Unknown => item.meta.None? && existing.None?
            case StillRunning => item.unfinished && lock == Some(Running)
            case StaleLock => item.unfinished && lock == Some(Stale)
            case NoState => item.meta.Some? && if item.unfinished then lock == None else item.status.None?
            case Succeeded =>
              item.status.Some? && item.status.value.state == Finished && !request.includeSucceeded && existing.None?
            case _ => false
  {
  }

  lemma UidFailure(
    g: Grammar, w: World, repo: string, request: Request, found: FoundMap, tombstones: map<string, Tombstone>,
    uid: string)
    requires OneRunEach(w.sources)
    requires Known(g, request.selection, w.sources, w.vault, uid, Get(found, uid))
    requires RecordedAs(w.lines, uid, Existing(tombstones, uid)) && IsTarget(g, request.selection, w, uid)
    requires PlanUid(w, repo, request, found, tombstones, uid).Err?
    ensures Reason(g, w, repo, request, PlanUid(w, repo, request, found, tombstones, uid).error)
  {
    var item, copies := Get(found, uid), Copies(g, request.selection, w, uid);
    var lock := if item.source.Some? then LockAt(w.sources, item.source.value) else None;
    PlanOneFailure(repo, request, uid, item, lock, Existing(tombstones, uid));
    BuriedIffRecorded(w.lines, uid, Existing(tombstones, uid));
    if item.unfinished {
      KeptLock(request.selection, w, uid, item);
      UnfinishedIff(request.selection, w.sources, uid, item);
    } else {
      NoStateSummed(g, w, request.selection, uid, item);
      StateIsSummed(item, copies, Finished);
    }
  }

  lemma NoStateSummed(g: Grammar, w: World, selection: Selection, uid: string, item: Found)
    requires Known(g, selection, w.sources, w.vault, uid, item) && !item.unfinished
    ensures item.meta.Some? && item.status.None? ==> NothingKnown(g, selection, w, uid)
  {
    var copies := Copies(g, selection, w, uid);
    UnfinishedIff(selection, w.sources, uid, item);
    StateIsSummed(item, copies, Failed);
    StateIsSummed(item, copies, Finished);
  }

  lemma {:induction false} EachFailure(
    w: World, repo: string, request: Request, found: FoundMap, tombstones: map<string, Tombstone>, uids: seq<string>)
    returns (uid: string)
    requires PlanEach(w, repo, request, found, tombstones, uids).Err?
    ensures uid in uids && PlanUid(w, repo, request, found, tombstones, uid).Err?
    ensures PlanUid(w, repo, request, found, tombstones, uid).error ==
            PlanEach(w, repo, request, found, tombstones, uids).error
  {
    var last := |uids| - 1;
    if PlanEach(w, repo, request, found, tombstones, uids[..last]).Err? {
      uid := EachFailure(w, repo, request, found, tombstones, uids[..last]);
    } else {
      uid := uids[last];
    }
  }

  /** Each error means what it says. */
  lemma RefusalHasItsReason(g: Grammar, w: World, repo: string, request: Request)
    requires OneRunEach(w.sources) && Plan(g, w, repo, request).Err?
    ensures Reason(g, w, repo, request, Plan(g, w, repo, request).error)
  {
    AcceptableIff(g, repo, request);
    ReadIff(g, repo, w.lines);
    if ValidRequest(g, repo, request) && Read(g, repo, w.lines).Ok? {
      if Scan(g, w, repo, request.selection).Err? {
        ScanFailure(g, w, repo, request);
      } else {
        ScanIff(g, w, repo, request.selection);
        TargetFailure(g, w, repo, request);
      }
    } else if ValidRequest(g, repo, request) {
      ReadFailure(g, repo, w.lines);
    }
  }

  lemma TargetFailure(g: Grammar, w: World, repo: string, request: Request)
    requires OneRunEach(w.sources) && Plan(g, w, repo, request).Err? && ValidRequest(g, repo, request)
    requires Read(g, repo, w.lines).Ok? && Scan(g, w, repo, request.selection).Ok?
    ensures Reason(g, w, repo, request, Plan(g, w, repo, request).error)
  {
    ReadIff(g, repo, w.lines);
    ScanIff(g, w, repo, request.selection);
    var tombstones, found := Read(g, repo, w.lines).value, Scan(g, w, repo, request.selection).value;
    var uids := SortedKeys(Targets(request.selection, found));
    var uid := EachFailure(w, repo, request, found, tombstones, uids);
    TargetPlanned(g, w, repo, request, found, tombstones, uids, uid);
    UidFailure(g, w, repo, request, found, tombstones, uid);
  }

  lemma {:induction false} ReadFailure(g: Grammar, repo: string, lines: seq<Line>)
    requires Read(g, repo, lines).Err?
    ensures Read(g, repo, lines) == Err(BadTombstone)
  {
    if Read(g, repo, lines[..|lines| - 1]).Err? { ReadFailure(g, repo, lines[..|lines| - 1]); }
  }
}
