/**
 Histories of one repository's vault: syncs, deletions that may stop after any
 stage of any target, and run directories that appear or change in between.

 Whatever the history, nothing is lost without a tombstone, the tombstone file
 only grows and stays readable with one line for each run, and a run that has
 been buried is never written to the vault again.
*/
module VaultHistory {
  import opened Wrappers
  import opened Deletion
  import opened DeletionScan
  import opened DeletionProgress
  import opened DeletionAgain
  import opened DeletionRepeat

  // What planning guarantees, for any selection

  /** A plan names one run, by a tombstone that reads. */
  ghost predicate SoundPlan(g: Grammar, repo: string, sources: seq<Source>, lines: seq<Line>, p: DeletePlan) {
    && ValidTombstone(g, repo, p.tombstone) && p.tombstone.runUid == p.runUid
    && (p.sourceDir.Some? ==> exists s :: s in sources && Carries(s, p.runUid) && s.dir == p.sourceDir.value)
    && (p.vaultPlace.Some? ==> p.vaultPlace.value.name == p.runUid)
    && (p.alreadyTombstoned ==> Records(lines, p.runUid))
  }

  lemma PlansAreSound(g: Grammar, w: World, repo: string, request: Request, plans: seq<DeletePlan>, p: DeletePlan)
    requires OneRunEach(w.sources) && Plan(g, w, repo, request) == Ok(plans) && p in plans
    ensures SoundPlan(g, repo, w.sources, w.lines, p)
  {
    var c := PlanIsPlanned(g, w, repo, request, plans);
    var i :| 0 <= i < |plans| && plans[i] == p;
    PlanFacts(g, repo, c, i);
    ReadFindsEveryRecord(g, repo, w.lines, p.runUid);
  }

  // Three things every step keeps

  predicate Readable(g: Grammar, repo: string, lines: seq<Line>) {
    Read(g, repo, lines).Ok?
  }

  predicate OneLineEach(lines: seq<Line>) {
    lines == [] ||
    var last := |lines| - 1;
    OneLineEach(lines[..last]) && (lines[last].Recorded? ==> !Records(lines[..last], lines[last].tombstone.runUid))
  }

  /** The tombstone file only grows, and stays a readable file with one line for each run. */
  ghost predicate Grows(g: Grammar, repo: string, a: seq<Line>, b: seq<Line>) {
    && a <= b
    && (Readable(g, repo, a) ==> Readable(g, repo, b))
    && (Readable(g, repo, a) && OneLineEach(a) ==> OneLineEach(b))
  }

  /** The same directory, still holding the same run. */
  predicate SameRun(s: Source, t: Source) {
    s.dir == t.dir && (s.content.Run? <==> t.content.Run?) && (s.content.Run? ==> s.content.meta == t.content.meta)
  }

  ghost predicate SourceKept(s: Source, w: World) {
    (exists t :: t in w.sources && SameRun(s, t)) || (s.content.Run? && Records(w.lines, s.content.meta.runUid))
  }

  ghost predicate VaultKept(v: VaultDir, w: World) {
    (exists u :: u in w.vault && u.experiment == v.experiment && u.name == v.name) || Records(w.lines, v.name)
  }

  /** Every copy is still there, or a tombstone says that it was deleted. */
  ghost predicate NothingLost(a: World, b: World) {
    && (forall s :: s in a.sources ==> SourceKept(s, b))
    && (forall v :: v in a.vault ==> VaultKept(v, b))
  }

  /** No copy of a buried run is created or rewritten. */
  ghost predicate NoReturn(a: World, b: World) {
    forall v :: v in b.vault && Records(a.lines, v.name) ==> v in a.vault
  }

  lemma RecordsGrow(a: seq<Line>, b: seq<Line>, uid: string)
    requires a <= b && Records(a, uid)
    ensures Records(b, uid)
  {
    var l :| l in a && l.Recorded? && l.tombstone.runUid == uid;
    assert l in b;
  }

  lemma KeptOnward(a: World, b: World, c: World)
    requires NothingLost(a, b) && NothingLost(b, c) && b.lines <= c.lines
    ensures NothingLost(a, c)
  {
    forall s | s in a.sources
      ensures SourceKept(s, c)
    {
      assert SourceKept(s, b);
      if s.content.Run? && Records(b.lines, s.content.meta.runUid) {
        RecordsGrow(b.lines, c.lines, s.content.meta.runUid);
      } else {
        var t :| t in b.sources && SameRun(s, t);
        assert SourceKept(t, c);
      }
    }
    forall v | v in a.vault
      ensures VaultKept(v, c)
    {
      assert VaultKept(v, b);
      if Records(b.lines, v.name) {
        RecordsGrow(b.lines, c.lines, v.name);
      } else {
        var u :| u in b.vault && u.experiment == v.experiment && u.name == v.name;
        assert VaultKept(u, c);
      }
    }
  }

  lemma NoReturnOnward(a: World, b: World, c: World)
    requires NoReturn(a, b) && NoReturn(b, c) && a.lines <= b.lines
    ensures NoReturn(a, c)
  {
    forall v | v in c.vault && Records(a.lines, v.name)
      ensures v in a.vault
    {
      RecordsGrow(a.lines, b.lines, v.name);
    }
  }

  ghost predicate Keeps(g: Grammar, repo: string, a: World, b: World) {
    Grows(g, repo, a.lines, b.lines) && NothingLost(a, b) && NoReturn(a, b) && OneRunEach(b.sources)
  }

  lemma KeepsOnward(g: Grammar, repo: string, a: World, b: World, c: World)
    requires Keeps(g, repo, a, b) && Keeps(g, repo, b, c)
    ensures Keeps(g, repo, a, c)
  {
    KeptOnward(a, b, c);
    NoReturnOnward(a, b, c);
  }

  lemma KeepsItself(g: Grammar, repo: string, w: World)
    requires OneRunEach(w.sources)
    ensures Keeps(g, repo, w, w)
  {
    forall s | s in w.sources
      ensures SourceKept(s, w)
    {
      assert SameRun(s, s);
    }
  }

  // Deleting

  lemma AppendingGrows(g: Grammar, repo: string, lines: seq<Line>, t: Tombstone)
    requires Read(g, repo, lines).Ok? && t.runUid !in Read(g, repo, lines).value && ValidTombstone(g, repo, t)
    ensures Grows(g, repo, lines, lines + [Recorded(t)]) && Records(lines + [Recorded(t)], t.runUid)
  {
    ReadAppended(g, repo, lines, t);
    ReadFindsEveryRecord(g, repo, lines, t.runUid);
    var longer := lines + [Recorded(t)];
    assert longer[..|lines|] == lines && longer[|lines|] == Recorded(t);
    assert Recorded(t) in longer;
  }

  /** The first stage grows the file, touches nothing else, and buries the run. */
  lemma BuryingKeeps(g: Grammar, repo: string, planned: World, w: World, p: DeletePlan)
    requires SoundPlan(g, repo, planned.sources, planned.lines, p) && planned.lines <= w.lines && OneRunEach(w.sources)
    requires AppendTombstone(g, w, p).Ok?
    ensures var w1 := AppendTombstone(g, w, p).value;
            w1 == w.(lines := w1.lines) && Keeps(g, repo, w, w1) && Records(w1.lines, p.runUid)
  {
    var w1 := AppendTombstone(g, w, p).value;
    KeepsItself(g, repo, w);
    if p.alreadyTombstoned {
      RecordsGrow(planned.lines, w.lines, p.runUid);
    } else if p.runUid in Read(g, repo, w.lines).value {
      ReadFindsEveryRecord(g, repo, w.lines, p.runUid);
    } else {
      AppendingGrows(g, repo, w.lines, p.tombstone);
      forall s | s in w.sources
        ensures SourceKept(s, w1)
      {
        assert SameRun(s, s);
      }
    }
  }

  lemma RemovingVaultKeeps(g: Grammar, repo: string, planned: World, w: World, p: DeletePlan)
    requires SoundPlan(g, repo, planned.sources, planned.lines, p) && Records(w.lines, p.runUid) &&
        OneRunEach(w.sources)
    ensures Keeps(g, repo, w, RemoveVault(w, p))
  {
    var after := RemoveVault(w, p);
    KeepsItself(g, repo, w);
    assert forall s :: s in w.sources ==> SourceKept(s, w);
    assert forall s :: SourceKept(s, w) <==> SourceKept(s, after);
    PlacesLeft(w.vault, PlacesOf(p));
    forall v | v in w.vault
      ensures VaultKept(v, after)
    {
      if v.name != p.runUid { assert v in after.vault; }
    }
  }

  lemma RemovingSourceKeeps(g: Grammar, repo: string, planned: World, w: World, p: DeletePlan)
    requires SoundPlan(g, repo, planned.sources, planned.lines, p) && Records(w.lines, p.runUid) &&
        OneRunEach(w.sources)
    requires OneRunEach(planned.sources) && forall s :: s in w.sources ==> s in planned.sources
    ensures Keeps(g, repo, w, RemoveSource(w, p))
  {
    var after := RemoveSource(w, p);
    KeepsItself(g, repo, w);
    assert forall v :: VaultKept(v, w) <==> VaultKept(v, after);
    DirsLeft(w.sources, DirsOf(p));
    forall s | s in w.sources
      ensures SourceKept(s, after)
    {
      assert SameRun(s, s);
      if s.dir !in DirsOf(p) { assert s in after.sources; }
    }
  }

  lemma ExecutingKeeps(g: Grammar, repo: string, planned: World, w: World, p: DeletePlan, stages: nat)
    requires SoundPlan(g, repo, planned.sources, planned.lines, p) && planned.lines <= w.lines && stages <= 3
    requires OneRunEach(planned.sources) && OneRunEach(w.sources) && forall s :: s in w.sources ==> s in planned.sources
    requires Execute(g, w, p, stages).Ok?
    ensures Keeps(g, repo, w, Execute(g, w, p, stages).value)
    ensures forall s :: s in Execute(g, w, p, stages).value.sources ==> s in planned.sources
  {
    if stages == 0 {
      KeepsItself(g, repo, w);
    } else {
      BuryingKeeps(g, repo, planned, w, p);
      var w1 := AppendTombstone(g, w, p).value;
      if stages >= 2 {
        var w2 := RemoveVault(w1, p);
        RemovingVaultKeeps(g, repo, planned, w1, p);
        KeepsOnward(g, repo, w, w1, w2);
        if stages >= 3 {
          RemovingSourceKeeps(g, repo, planned, w2, p);
          KeepsOnward(g, repo, w, w2, RemoveSource(w2, p));
          DirsLeft(w2.sources, DirsOf(p));
        }
      }
    }
  }

  lemma {:induction false} DeletingKeeps(
    g: Grammar, repo: string, planned: World, w: World, plans: seq<DeletePlan>, stages: nat)
    requires forall p :: p in plans ==> SoundPlan(g, repo, planned.sources, planned.lines, p)
    requires planned.lines <= w.lines
    requires OneRunEach(planned.sources) && OneRunEach(w.sources) && forall s :: s in w.sources ==> s in planned.sources
    ensures Keeps(g, repo, w, ExecuteAll(g, w, plans, stages))
    decreases |plans|
  {
    if plans == [] || Execute(g, w, plans[0], if stages < 3 then stages else 3).Err? {
      KeepsItself(g, repo, w);
    } else {
      assert plans[0] in plans;
      ExecutingKeeps(g, repo, planned, w, plans[0], if stages < 3 then stages else 3);
      var after := Execute(g, w, plans[0], if stages < 3 then stages else 3).value;
      if stages > 3 {
        DeletingKeeps(g, repo, planned, after, plans[1..], stages - 3);
        KeepsOnward(g, repo, w, after, ExecuteAll(g, w, plans, stages));
      }
    }
  }

  // Syncing

  /**
   What a sync puts at a destination; it may be killed or refused with anything there, and before
   it makes the link.
  */
  datatype Copy = Copy(meta: Option<Meta>, status: Option<Status>, linked: bool)

  /** The runs a sync would send, in order: those of the repository that are not buried and that it admits. */
  function Sendable(
    repo: string, sources: seq<Source>, tombstones: map<string, Tombstone>, admits: set<string>): Result<seq<Source>,
    Error> {
    if sources == [] then Ok([])
    else
      var last := |sources| - 1;
      match Sendable(repo, sources[..last], tombstones, admits)
      case Err(e) => Err(e)
      case Ok(earlier) =>
        var s := sources[last];
        if s.content.Legacy? then Ok(earlier)
        else if s.content.meta.repoId == repo && s.content.meta.runUid in tombstones then Ok(earlier)
        else if s.content.meta.repoId != repo then Err(WrongRepository)
        else Ok(if s.dir in admits then earlier + [s] else earlier)
  }

  function PlanSync(g: Grammar, repo: string, w: World, admits: set<string>): Result<seq<Source>, Error> {
    match Read(g, repo, w.lines)
    case Err(e) => Err(e)
    case Ok(tombstones) => Sendable(repo, w.sources, tombstones, admits)
  }

  function Send(w: World, s: Source, copy: Copy): World
    requires s.content.Run?
  {
    var meta := s.content.meta;
    var place := Place(meta.experiment, meta.runUid);
    w.(vault := WithoutPlaces(w.vault, {place}) + [VaultDir(meta.experiment, meta.runUid, copy.meta, copy.status)],
       links := if copy.linked then w.links + {Link(meta.experiment, meta.runSlug, meta.runUid)} else w.links)
  }

  /** The sends that are carried out before the sync ends, however it ends: one for each copy. */
  function SendAll(w: World, sends: seq<Source>, copies: seq<Copy>): World
    requires forall s :: s in sends ==> s.content.Run?
    decreases |sends|
  {
    if sends == [] || copies == [] then w else SendAll(Send(w, sends[0], copies[0]), sends[1..], copies[1..])
  }

  ghost predicate OwnRuns(repo: string, sources: seq<Source>) {
    forall s :: s in sources && s.content.Run? ==> s.content.meta.repoId == repo
  }

  /** A run of another repository stops the planning. */
  lemma {:induction false} SendableIfOwn(
    repo: string, sources: seq<Source>, tombstones: map<string, Tombstone>, admits: set<string>)
    ensures Sendable(repo, sources, tombstones, admits).Ok? <==> OwnRuns(repo, sources)
    ensures !OwnRuns(repo, sources) ==> Sendable(repo, sources, tombstones, admits) == Err(WrongRepository)
  {
    if sources != [] {
      var last := |sources| - 1;
      SendableIfOwn(repo, sources[..last], tombstones, admits);
      assert sources == sources[..last] + [sources[last]];
    }
  }

  /** Of the repository's own runs, the buried stay and the admitted go. */
  lemma {:induction false} SendableIff(
    repo: string, sources: seq<Source>, tombstones: map<string, Tombstone>, admits: set<string>)
    requires Sendable(repo, sources, tombstones, admits).Ok?
    ensures forall s :: s in Sendable(repo, sources, tombstones, admits).value <==>
              s in sources && s.content.Run? && s.content.meta.runUid !in tombstones && s.dir in admits
  {
    if sources != [] {
      var last := |sources| - 1;
      SendableIff(repo, sources[..last], tombstones, admits);
      assert sources == sources[..last] + [sources[last]];
    }
  }

  /** What a sync sends: the runs it admits that have no tombstone. */
  lemma SyncSendsIff(g: Grammar, repo: string, w: World, admits: set<string>)
    ensures var sends := PlanSync(g, repo, w, admits);
            && (sends.Ok? <==> Readable(g, repo, w.lines) && OwnRuns(repo, w.sources))
            && (sends.Ok? ==>
                  forall s :: s in sends.value <==>
                    s in w.sources && s.content.Run? && !Records(w.lines, s.content.meta.runUid) && s.dir in admits)
  {
    if Readable(g, repo, w.lines) {
      var tombstones := Read(g, repo, w.lines).value;
      SendableIfOwn(repo, w.sources, tombstones, admits);
      if OwnRuns(repo, w.sources) { SendableIff(repo, w.sources, tombstones, admits); }
      forall uid
        ensures uid in tombstones <==> Records(w.lines, uid)
      {
        ReadFindsEveryRecord(g, repo, w.lines, uid);
      }
    }
  }

  /** What a send leaves: the copy in place of the run's directory, and its link if it got so far; all else stays. */
  lemma SendLeaves(w: World, s: Source, copy: Copy)
    requires s.content.Run?
    ensures var after, meta := Send(w, s, copy), s.content.meta;
            && after.sources == w.sources && after.lines == w.lines
            && (forall v :: v in after.vault && v.experiment == meta.experiment && v.name == meta.runUid <==>
                  v == VaultDir(meta.experiment, meta.runUid, copy.meta, copy.status))
            && (forall v: VaultDir :: v.experiment != meta.experiment || v.name != meta.runUid ==>
                  (v in after.vault <==> v in w.vault))
            && (forall l :: l in after.links <==>
                  l in w.links ||
                  (copy.linked && l.experiment == meta.experiment && l.slug == meta.runSlug && l.uid == meta.runUid))
  {
    var meta, after := s.content.meta, Send(w, s, copy);
    var place := Place(meta.experiment, meta.runUid);
    var sent := VaultDir(meta.experiment, meta.runUid, copy.meta, copy.status);
    PlacesLeft(w.vault, {place});
    assert forall v :: v in after.vault <==> v in WithoutPlaces(w.vault, {place}) || v == sent;
  }

  lemma SendingKeeps(g: Grammar, repo: string, w: World, s: Source, copy: Copy)
    requires s.content.Run? && !Records(w.lines, s.content.meta.runUid) && OneRunEach(w.sources)
    ensures Keeps(g, repo, w, Send(w, s, copy))
  {
    var after := Send(w, s, copy);
    var place := Place(s.content.meta.experiment, s.content.meta.runUid);
    var sent := VaultDir(place.experiment, place.name, copy.meta, copy.status);
    KeepsItself(g, repo, w);
    assert forall t :: SourceKept(t, w) <==> SourceKept(t, after);
    PlacesLeft(w.vault, {place});
    forall v | v in w.vault
      ensures VaultKept(v, after)
    {
      assert sent in after.vault;
      if Place(v.experiment, v.name) != place { assert v in after.vault; }
    }
  }

  lemma {:induction false} SyncingKeeps(g: Grammar, repo: string, w: World, sends: seq<Source>, copies: seq<Copy>)
    requires forall s :: s in sends ==> s.content.Run? && !Records(w.lines, s.content.meta.runUid)
    requires OneRunEach(w.sources)
    ensures Keeps(g, repo, w, SendAll(w, sends, copies))
    decreases |sends|
  {
    if sends == [] || copies == [] {
      KeepsItself(g, repo, w);
    } else {
      var after := Send(w, sends[0], copies[0]);
      assert sends[0] in sends;
      SendingKeeps(g, repo, w, sends[0], copies[0]);
      SyncingKeeps(g, repo, after, sends[1..], copies[1..]);
      KeepsOnward(g, repo, w, after, SendAll(w, sends, copies));
    }
  }

  // Runs that appear and change

  function Touched(sources: seq<Source>, s: Source): seq<Source> {
    if sources == [] then []
    else [if SameRun(sources[0], s) then s else sources[0]] + Touched(sources[1..], s)
  }

  /** A run directory appears where there was none, or changes its status or lock. */
  function Arrive(w: World, s: Source, at: nat): World {
    if exists t :: t in w.sources && t.dir == s.dir then w.(sources := Touched(w.sources, s))
    else if at <= |w.sources| then w.(sources := w.sources[..at] + [s] + w.sources[at..])
    else w
  }

  lemma {:induction false} TouchedKeepsTheRest(sources: seq<Source>, s: Source)
    ensures forall t :: t in sources ==> if SameRun(t, s) then s in Touched(sources, s) else t in Touched(sources, s)
    ensures forall t :: t in Touched(sources, s) ==>
        t in sources || (t == s && exists u :: u in sources && SameRun(u, s))
    ensures forall t :: t in Touched(sources, s) && SameRun(t, s) ==> t == s
  {
    if sources != [] {
      TouchedKeepsTheRest(sources[1..], s);
      assert sources == [sources[0]] + sources[1..];
    }
  }

  lemma ArrivingKeeps(g: Grammar, repo: string, w: World, s: Source, at: nat)
    requires OneRunEach(w.sources)
    ensures Keeps(g, repo, w, Arrive(w, s, at))
  {
    var after := Arrive(w, s, at);
    KeepsItself(g, repo, w);
    assert forall v :: VaultKept(v, w) <==> VaultKept(v, after);
    TouchedKeepsTheRest(w.sources, s);
    forall t | t in w.sources
      ensures SourceKept(t, after)
    {
      assert SameRun(t, t);
      if exists u :: u in w.sources && u.dir == s.dir {
        assert (if SameRun(t, s) then s else t) in after.sources;
      } else {
        assert t in after.sources;
      }
    }
  }

  // Histories

  datatype Event =
    | Delete(request: Request, stages: nat)
    | Sync(admits: set<string>, copies: seq<Copy>)
    | Appear(source: Source, at: nat)

  ghost function Do(g: Grammar, repo: string, w: World, c: Event): World {
    match c
    case Delete(request, stages) =>
      (match Plan(g, w, repo, request)
       case Err(_) => w
       case Ok(plans) => ExecuteAll(g, w, plans, stages))
    case Sync(admits, copies) =>
      (match PlanSync(g, repo, w, admits)
       case Err(_) => w
       case Ok(sends) => OnlyRuns(g, repo, w, admits); SendAll(w, sends, copies))
    case Appear(s, at) => Arrive(w, s, at)
  }

  lemma OnlyRuns(g: Grammar, repo: string, w: World, admits: set<string>)
    requires PlanSync(g, repo, w, admits).Ok?
    ensures forall s :: s in PlanSync(g, repo, w, admits).value ==>
        s.content.Run? && !Records(w.lines, s.content.meta.runUid)
  {
    var tombstones := Read(g, repo, w.lines).value;
    SendableIff(repo, w.sources, tombstones, admits);
    forall s | s in PlanSync(g, repo, w, admits).value
      ensures !Records(w.lines, s.content.meta.runUid)
    {
      ReadFindsEveryRecord(g, repo, w.lines, s.content.meta.runUid);
    }
  }

  ghost function DoAll(g: Grammar, repo: string, w: World, history: seq<Event>): World
    decreases |history|
  {
    if history == [] then w else DoAll(g, repo, Do(g, repo, w, history[0]), history[1..])
  }

  lemma EventKeeps(g: Grammar, repo: string, w: World, c: Event)
    requires OneRunEach(w.sources)
    ensures Keeps(g, repo, w, Do(g, repo, w, c))
  {
    KeepsItself(g, repo, w);
    match c
    case Delete(request, stages) =>
      if Plan(g, w, repo, request).Ok? {
        var plans := Plan(g, w, repo, request).value;
        forall p | p in plans
          ensures SoundPlan(g, repo, w.sources, w.lines, p)
        {
          PlansAreSound(g, w, repo, request, plans, p);
        }
        DeletingKeeps(g, repo, w, w, plans, stages);
      }
    case Sync(admits, copies) =>
      if PlanSync(g, repo, w, admits).Ok? {
        OnlyRuns(g, repo, w, admits);
        SyncingKeeps(g, repo, w, PlanSync(g, repo, w, admits).value, copies);
      }
    case Appear(s, at) => ArrivingKeeps(g, repo, w, s, at);
  }

  /**
   Over any history: nothing is lost without a tombstone, the tombstone file
   grows and stays readable with one line for each run, and no copy of a run
   buried at the start is created or rewritten.
  */
  lemma {:induction false} HistoryKeeps(g: Grammar, repo: string, w: World, history: seq<Event>)
    requires OneRunEach(w.sources)
    ensures Keeps(g, repo, w, DoAll(g, repo, w, history))
    decreases |history|
  {
    if history == [] {
      KeepsItself(g, repo, w);
    } else {
      var after := Do(g, repo, w, history[0]);
      EventKeeps(g, repo, w, history[0]);
      HistoryKeeps(g, repo, after, history[1..]);
      KeepsOnward(g, repo, w, after, DoAll(g, repo, w, history));
    }
  }

  /** The selection takes every vault copy of the run, and there is one at most. */
  ghost predicate VaultWhollyTaken(g: Grammar, selection: Selection, w: World, uid: string) {
    && (forall u, v :: u in w.vault && v in w.vault && u.name == uid && v.name == uid ==> u.experiment == v.experiment)
    && (forall v :: v in w.vault && v.name == uid ==> TakesVault(g, selection, v, uid))
  }

  lemma VaultPlannedIff(g: Grammar, selection: Selection, w: World, item: Found, p: DeletePlan, uid: string)
    requires Says(g, selection, w, item, uid) && Follows(p, uid, item, selection)
    ensures (forall v :: v in w.vault && v.name == uid ==> PlaceOf(v) in PlacesOf(p)) <==>
        VaultWhollyTaken(g, selection, w, uid)
  {
    if v :| v in w.vault && v.name == uid && (PlaceOf(v) in PlacesOf(p) || TakesVault(g, selection, v, uid)) {
      var u :| u in w.vault && TakesVault(g, selection, u, uid) && PlaceOf(u) == item.vault.value;
    }
  }

  lemma VaultGoneIff(g: Grammar, repo: string, c: Command, i: nat)
    requires Planned(g, repo, c) && i < |c.plans|
    ensures !AnyNamed(Done(g, c.w, c.plans).vault, c.uids[i])
       <==> VaultWhollyTaken(g, c.request.selection, c.w, c.uids[i])
  {
    DoneLeaves(g, repo, c, i);
    PlanFacts(g, repo, c, i);
    VaultPlannedIff(g, c.request.selection, c.w, Get(c.found, c.uids[i]), c.plans[i], c.uids[i]);
  }

  lemma DoneIsBuried(g: Grammar, repo: string, c: Command, i: nat)
    requires Planned(g, repo, c) && i < |c.plans|
    ensures Records(Done(g, c.w, c.plans).lines, c.uids[i]) && OneRunEach(Done(g, c.w, c.plans).sources)
  {
    var n := |c.plans|;
    AllAt(g, repo, c);
    DirsLeft(c.w.sources, AllDirs(c.plans));
    FileReached(g, repo, c, n);
    TombstoneReached(g, repo, c, n, i);
    ReadFindsEveryRecord(g, repo, Done(g, c.w, c.plans).lines, c.uids[i]);
  }

  lemma BuriedStaysAbsent(g: Grammar, repo: string, w: World, uid: string, history: seq<Event>)
    requires OneRunEach(w.sources) && Records(w.lines, uid) && !AnyNamed(w.vault, uid)
    ensures !AnyNamed(DoAll(g, repo, w, history).vault, uid)
  {
    HistoryKeeps(g, repo, w, history);
  }

  /**
   Once a command of either kind has completed, a run it planned for stays
   absent from the vault through every later history, if and only if the
   selection took every vault copy of it.
  */
  lemma DeletedStaysAbsentIff(
    g: Grammar, repo: string, w: World, request: Request, plans: seq<DeletePlan>, p: DeletePlan)
    requires OneRunEach(w.sources) && Plan(g, w, repo, request) == Ok(plans) && p in plans
    ensures (forall history :: !AnyNamed(DoAll(g, repo, Done(g, w, plans), history).vault, p.runUid))
       <==> VaultWhollyTaken(g, request.selection, w, p.runUid)
  {
    var c := PlanIsPlanned(g, w, repo, request, plans);
    var final := Done(g, w, plans);
    var i :| 0 <= i < |plans| && plans[i] == p;
    assert p.runUid == c.uids[i] by { PlanFacts(g, repo, c, i); }
    VaultGoneIff(g, repo, c, i);
    DoneIsBuried(g, repo, c, i);
    assert DoAll(g, repo, final, []) == final;
    if !AnyNamed(final.vault, p.runUid) {
      forall history
        ensures !AnyNamed(DoAll(g, repo, final, history).vault, p.runUid)
      {
        BuriedStaysAbsent(g, repo, final, p.runUid, history);
      }
    }
  }

  /**
   Planning and sending a sync must not be interleaved with a deletion: a send
   planned before it and carried out after its vault stage puts the buried run
   back, and the rest of the deletion leaves it there.
  */
  lemma StaleSendReturnsTheRun(
    g: Grammar, repo: string, w: World, request: Request, plans: seq<DeletePlan>, p: DeletePlan,
                               admits: set<string>, s: Source, copy: Copy)
    requires Plan(g, w, repo, request) == Ok(plans) && p in plans
    requires PlanSync(g, repo, w, admits).Ok? && s in PlanSync(g, repo, w, admits).value && Carries(s, p.runUid)
    requires OneRunEach(w.sources)
    ensures Execute(g, w, p, 2).Ok?
    ensures var final := RemoveSource(Send(Execute(g, w, p, 2).value, s, copy), p);
            Records(final.lines, p.runUid) && AnyNamed(final.vault, p.runUid)
  {
    PlansAreSound(g, w, repo, request, plans, p);
    BuryingKeeps(g, repo, w, w, p);
    var w2 := Execute(g, w, p, 2).value;
    var sent := VaultDir(s.content.meta.experiment, s.content.meta.runUid, copy.meta, copy.status);
    assert sent in Send(w2, s, copy).vault;
  }
}
