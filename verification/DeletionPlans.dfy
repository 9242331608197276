/**
 When `runvault delete` plans, and what it then plans, stated of the repository
 and the request alone: which directories a request is about, what they have to
 agree on, and which runs may go.
*/
module DeletionPlans {
  import opened Wrappers
  import opened TextOrder
  import opened Deletion

  // What a request is about

  /** One copy of a run, in the sources or in the vault. */
  datatype Copy = Copy(meta: Meta, status: Option<Status>)

  predicate Asks(selection: Selection, uid: string, experiment: string) {
    match selection
    case RunUids(uids) => exists i :: 0 <= i < |uids| && uids[i] == uid
    case FailedExperiment(wanted) => experiment == wanted
  }

  predicate AsksSource(selection: Selection, s: Source) {
    s.content.Run? && Asks(selection, s.content.meta.runUid, s.content.meta.experiment)
  }

  predicate AsksVault(g: Grammar, selection: Selection, v: VaultDir) {
    v.name != "by-slug" && g.runUid(v.name) && Asks(selection, v.name, v.experiment)
  }

  function SourceCopies(selection: Selection, sources: seq<Source>, uid: string): set<Copy> {
    set s | s in sources && AsksSource(selection, s) && s.content.meta.runUid == uid ::
      Copy(s.content.meta, s.content.status)
  }

  function VaultCopies(g: Grammar, selection: Selection, vault: seq<VaultDir>, uid: string): set<Copy> {
    set v | v in vault && AsksVault(g, selection, v) && v.name == uid && v.meta.Some? :: Copy(v.meta.value, v.status)
  }

  function Copies(g: Grammar, selection: Selection, w: World, uid: string): set<Copy> {
    BothCopies(g, selection, w.sources, w.vault, uid)
  }

  // What its directories have to be

  predicate WellNamed(g: Grammar, meta: Meta) {
    g.slug(meta.experiment) && g.runUid(meta.runUid) && g.runSlug(meta.runSlug)
  }

  /** A copy on its own: of this repository, well named, with a status of its own if any. */
  predicate CopyFits(g: Grammar, repo: string, c: Copy) {
    && c.meta.repoId == repo && WellNamed(g, c.meta)
    && (c.status.Some? ==> c.status.value.runUid == c.meta.runUid)
  }

  predicate SourceFits(g: Grammar, repo: string, selection: Selection, s: Source) {
    match s.content
    case Run(meta, status, _) => AsksSource(selection, s) ==> CopyFits(g, repo, Copy(meta, status))
    case Legacy(experiment, status) =>
      status.Some? ==>
        match selection
        case RunUids(uids) => !(exists i :: 0 <= i < |uids| && uids[i] == status.value.runUid)
        case FailedExperiment(wanted) => experiment != Some(wanted) || status.value.state != Failed
  }

  predicate VaultFits(g: Grammar, repo: string, selection: Selection, v: VaultDir) {
    AsksVault(g, selection, v) ==>
      v.meta.Some? && v.meta.value.runUid == v.name && CopyFits(g, repo, Copy(v.meta.value, v.status))
  }

  /** Two copies of one run tell the same of it. */
  predicate Agree(c: Copy, d: Copy) {
    && c.meta.runUid == d.meta.runUid && c.meta.runSlug == d.meta.runSlug && c.meta.experiment == d.meta.experiment
    && (c.status.Some? && d.status.Some? ==> c.status.value.state == d.status.value.state)
  }

  predicate AllAgree(copies: set<Copy>) {
    forall c, d :: c in copies && d in copies ==> Agree(c, d)
  }

  ghost predicate SourcesFit(g: Grammar, repo: string, selection: Selection, sources: seq<Source>) {
    && (forall s :: s in sources ==> SourceFits(g, repo, selection, s))
    && (forall uid :: AllAgree(SourceCopies(selection, sources, uid)))
  }

  ghost predicate VaultFitsToo(
    g: Grammar, repo: string, selection: Selection, sources: seq<Source>, vault: seq<VaultDir>)
  {
    && (forall v :: v in vault ==> VaultFits(g, repo, selection, v))
    && (forall uid :: AllAgree(BothCopies(g, selection, sources, vault, uid)))
  }

  function BothCopies(
    g: Grammar, selection: Selection, sources: seq<Source>, vault: seq<VaultDir>, uid: string): set<Copy>
  {
    SourceCopies(selection, sources, uid) + VaultCopies(g, selection, vault, uid)
  }

  /** Every directory the request is about is what it has to be, and the copies of each run agree. */
  ghost predicate DirectoriesFit(g: Grammar, repo: string, selection: Selection, w: World) {
    && (forall s :: s in w.sources ==> SourceFits(g, repo, selection, s))
    && (forall v :: v in w.vault ==> VaultFits(g, repo, selection, v))
    && (forall uid :: AllAgree(Copies(g, selection, w, uid)))
  }

  // The scans find exactly that

  /** What a scan keeps of a run says what all its copies so far say. */
  ghost predicate Sums(item: Found, copies: set<Copy>) {
    && (item.meta.None? <==> copies == {})
    && (item.meta.None? ==> item.status.None?)
    && (forall c :: c in copies ==> Agree(c, Copy(item.meta.value, item.status)))
    && (item.status.Some? <==> exists c :: c in copies && c.status.Some?)
  }

  lemma MergeSums(item: Found, copies: set<Copy>, c: Copy)
    requires Sums(item, copies) && AllAgree(copies)
    ensures Merge(item, c.meta, c.status).Ok? <==>
            (c.status.Some? ==> c.status.value.runUid == c.meta.runUid) && AllAgree(copies + {c})
    ensures Merge(item, c.meta, c.status).Ok? ==>
            var merged := Merge(item, c.meta, c.status).value;
            Sums(merged, copies + {c}) && merged.source == item.source && merged.vault == item.vault
  {
    if AllAgree(copies + {c}) && item.meta.Some? {
      MergedAgrees(item, copies, c);
    }
    if Merge(item, c.meta, c.status).Ok? {
      var merged := Merge(item, c.meta, c.status).value;
      forall d | d in copies
        ensures Agree(c, d) && Agree(d, c) && Agree(d, Copy(merged.meta.value, merged.status))
      {
        assert Agree(d, Copy(item.meta.value, item.status));
      }
      if merged.status.Some? {
        assert exists d :: d in copies + {c} && d.status.Some? by {
          if c.status.Some? { assert c in copies + {c}; } else {
            var d :| d in copies && d.status.Some?;
            assert d in copies + {c};
          }
        }
      }
    }
  }

  lemma MergedAgrees(item: Found, copies: set<Copy>, c: Copy)
    requires Sums(item, copies) && AllAgree(copies + {c}) && item.meta.Some?
    ensures MetasAgree(item.meta, c.meta)
    ensures item.status.Some? && c.status.Some? ==> item.status.value.state == c.status.value.state
  {
    var d :| d in copies;
    assert Agree(d, Copy(item.meta.value, item.status)) && Agree(d, c);
    if item.status.Some? && c.status.Some? {
      var e :| e in copies && e.status.Some?;
      assert Agree(e, Copy(item.meta.value, item.status)) && Agree(e, c);
    }
  }

  lemma CopiesOneMore(selection: Selection, sources: seq<Source>, uid: string)
    requires sources != []
    ensures var before, last := sources[..|sources| - 1], sources[|sources| - 1];
            SourceCopies(selection, sources, uid) ==
            SourceCopies(selection, before, uid) +
            if AsksSource(selection, last) && last.content.meta.runUid == uid
            then {Copy(last.content.meta, last.content.status)} else {}
  {
    assert sources == sources[..|sources| - 1] + [sources[|sources| - 1]];
  }

  lemma VaultCopiesOneMore(g: Grammar, selection: Selection, vault: seq<VaultDir>, uid: string)
    requires vault != []
    ensures var before, last := vault[..|vault| - 1], vault[|vault| - 1];
            VaultCopies(g, selection, vault, uid) ==
            VaultCopies(g, selection, before, uid) +
            if AsksVault(g, selection, last) && last.name == uid && last.meta.Some?
            then {Copy(last.meta.value, last.status)} else {}
  {
    assert vault == vault[..|vault| - 1] + [vault[|vault| - 1]];
  }

  predicate IsSourceCopy(selection: Selection, s: Source, uid: string) {
    AsksSource(selection, s) && s.content.meta.runUid == uid
  }

  predicate IsVaultCopy(g: Grammar, selection: Selection, v: VaultDir, uid: string) {
    AsksVault(g, selection, v) && v.name == uid
  }

  /** A scan keeps the last source directory of a run. */
  predicate LastSource(selection: Selection, sources: seq<Source>, uid: string, i: nat) {
    && i < |sources| && IsSourceCopy(selection, sources[i], uid)
    && forall j :: i < j < |sources| ==> !IsSourceCopy(selection, sources[j], uid)
  }

  predicate LastVault(g: Grammar, selection: Selection, vault: seq<VaultDir>, uid: string, i: nat) {
    && i < |vault| && IsVaultCopy(g, selection, vault[i], uid)
    && forall j :: i < j < |vault| ==> !IsVaultCopy(g, selection, vault[j], uid)
  }

  ghost predicate KeepsSource(selection: Selection, sources: seq<Source>, uid: string, item: Found) {
    match item.source
    case None => !item.unfinished && forall i :: 0 <= i < |sources| ==> !IsSourceCopy(selection, sources[i], uid)
    case Some(dir) =>
      exists i: nat :: LastSource(selection, sources, uid, i) && sources[i].dir == dir
                    && item.unfinished == sources[i].content.status.None?
  }

  ghost predicate KeepsVault(g: Grammar, selection: Selection, vault: seq<VaultDir>, uid: string, item: Found) {
    match item.vault
    case None => forall i :: 0 <= i < |vault| ==> !IsVaultCopy(g, selection, vault[i], uid)
    case Some(place) =>
      exists i: nat :: LastVault(g, selection, vault, uid, i) && PlaceOf(vault[i]) == place
  }

  lemma KeepsOnward(selection: Selection, sources: seq<Source>, uid: string, item: Found)
    requires sources != []
    requires KeepsSource(selection, sources[..|sources| - 1], uid, item)
    requires !IsSourceCopy(selection, sources[|sources| - 1], uid)
    ensures KeepsSource(selection, sources, uid, item)
  {
    var before := sources[..|sources| - 1];
    assert forall i :: 0 <= i < |before| ==> before[i] == sources[i];
    if item.source.Some? {
      var i: nat :| LastSource(selection, before, uid, i) && before[i].dir == item.source.value
                    && item.unfinished == before[i].content.status.None?;
      assert LastSource(selection, sources, uid, i);
    }
  }

  lemma KeepsVaultOnward(g: Grammar, selection: Selection, vault: seq<VaultDir>, uid: string, item: Found)
    requires vault != []
    requires KeepsVault(g, selection, vault[..|vault| - 1], uid, item)
    requires !IsVaultCopy(g, selection, vault[|vault| - 1], uid)
    ensures KeepsVault(g, selection, vault, uid, item)
  {
    var before := vault[..|vault| - 1];
    assert forall i :: 0 <= i < |before| ==> before[i] == vault[i];
    if item.vault.Some? {
      var i: nat :| LastVault(g, selection, before, uid, i) && PlaceOf(before[i]) == item.vault.value;
      assert LastVault(g, selection, vault, uid, i);
    }
  }

  /** What the source scan knows of a run. */
  ghost predicate SourceKnown(selection: Selection, sources: seq<Source>, uid: string, item: Found) {
    Sums(item, SourceCopies(selection, sources, uid)) && KeepsSource(selection, sources, uid, item) && item.vault.None?
  }

  ghost predicate AllSourceKnown(selection: Selection, sources: seq<Source>, found: FoundMap) {
    forall uid :: SourceKnown(selection, sources, uid, Get(found, uid))
  }

  lemma AskedIsSelected(selection: Selection, uid: string, experiment: string)
    ensures Asks(selection, uid, experiment) <==> Selected(selection, uid, experiment)
  {
  }

  lemma NamedIsSelected(g: Grammar, repo: string, selection: Selection, s: Source)
    requires s.content.Legacy?
    ensures SourceFits(g, repo, selection, s) <==> !SelectsLegacy(selection, s.content)
  {
  }

  /** One more source directory. */
  lemma AbsorbIff(g: Grammar, repo: string, selection: Selection, sources: seq<Source>, found: FoundMap)
    requires sources != []
    requires var before := sources[..|sources| - 1];
             AllSourceKnown(selection, before, found) && forall uid :: AllAgree(SourceCopies(selection, before, uid))
    ensures var last := sources[|sources| - 1];
            AbsorbSource(g, repo, selection, found, last).Ok? <==>
            SourceFits(g, repo, selection, last) && (AsksSource(selection, last) ==>
              AllAgree(SourceCopies(selection, sources, last.content.meta.runUid)))
    ensures AbsorbSource(g, repo, selection, found, sources[|sources| - 1]).Ok? ==>
            AllSourceKnown(selection, sources, AbsorbSource(g, repo, selection, found, sources[|sources| - 1]).value)
  {
    var before, last := sources[..|sources| - 1], sources[|sources| - 1];
    var r := AbsorbSource(g, repo, selection, found, last);
    if last.content.Legacy? {
      NamedIsSelected(g, repo, selection, last);
    } else {
      var meta, uid := last.content.meta, last.content.meta.runUid;
      AskedIsSelected(selection, uid, meta.experiment);
      CopiesOneMore(selection, sources, uid);
      assert SourceKnown(selection, before, uid, Get(found, uid));
      assert AllAgree(SourceCopies(selection, before, uid));
      MergeSums(Get(found, uid), SourceCopies(selection, before, uid), Copy(meta, last.content.status));
    }
    if r.Ok? {
      forall uid
        ensures SourceKnown(selection, sources, uid, Get(r.value, uid))
      {
        assert SourceKnown(selection, before, uid, Get(found, uid));
        AbsorbedIsKnown(g, repo, selection, sources, found, uid);
      }
    }
  }

  lemma AbsorbedIsKnown(
    g: Grammar, repo: string, selection: Selection, sources: seq<Source>, found: FoundMap, uid: string)
    requires sources != []
    requires var before := sources[..|sources| - 1];
             SourceKnown(selection, before, uid, Get(found, uid)) && AllAgree(SourceCopies(selection, before, uid))
    requires AbsorbSource(g, repo, selection, found, sources[|sources| - 1]).Ok?
    ensures SourceKnown(selection, sources, uid,
                        Get(AbsorbSource(g, repo, selection, found, sources[|sources| - 1]).value, uid))
  {
    var before, last := sources[..|sources| - 1], sources[|sources| - 1];
    CopiesOneMore(selection, sources, uid);
    if IsSourceCopy(selection, last, uid) {
      AskedIsSelected(selection, uid, last.content.meta.experiment);
      MergeSums(Get(found, uid), SourceCopies(selection, before, uid), Copy(last.content.meta, last.content.status));
      assert LastSource(selection, sources, uid, |sources| - 1);
    } else {
      if last.content.Run? { AskedIsSelected(selection, last.content.meta.runUid, last.content.meta.experiment); }
      assert Get(AbsorbSource(g, repo, selection, found, last).value, uid) == Get(found, uid);
      KeepsOnward(selection, sources, uid, Get(found, uid));
    }
  }

  lemma {:induction false} SourcesScanIff(g: Grammar, repo: string, selection: Selection, sources: seq<Source>)
    ensures ScanSources(g, repo, selection, sources).Ok? <==> SourcesFit(g, repo, selection, sources)
    ensures ScanSources(g, repo, selection, sources).Ok? ==>
            AllSourceKnown(selection, sources, ScanSources(g, repo, selection, sources).value)
  {
    if sources == [] {
      forall uid
        ensures SourceKnown(selection, sources, uid, Get(map[], uid))
      {
      }
    } else {
      var before, last := sources[..|sources| - 1], sources[|sources| - 1];
      SourcesScanIff(g, repo, selection, before);
      SourcesFitOneMore(g, repo, selection, sources);
      if SourcesFit(g, repo, selection, before) {
        AbsorbIff(g, repo, selection, sources, ScanSources(g, repo, selection, before).value);
      }
    }
  }

  lemma SourcesFitOneMore(g: Grammar, repo: string, selection: Selection, sources: seq<Source>)
    requires sources != []
    ensures var before, last := sources[..|sources| - 1], sources[|sources| - 1];
            SourcesFit(g, repo, selection, sources) <==>
            SourcesFit(g, repo, selection, before) && SourceFits(g, repo, selection, last) &&
            (AsksSource(selection, last) ==> AllAgree(SourceCopies(selection, sources, last.content.meta.runUid)))
  {
    var before, last := sources[..|sources| - 1], sources[|sources| - 1];
    assert forall s :: s in sources <==> s in before || s == last by { assert sources == before + [last]; }
    forall uid
      ensures SourceCopies(selection, before, uid) <= SourceCopies(selection, sources, uid)
      ensures !(AsksSource(selection, last) && last.content.meta.runUid == uid) ==>
              SourceCopies(selection, sources, uid) == SourceCopies(selection, before, uid)
    {
      CopiesOneMore(selection, sources, uid);
    }
  }

  /** What both scans know of a run. */
  ghost predicate Known(
    g: Grammar, selection: Selection, sources: seq<Source>, vault: seq<VaultDir>, uid: string, item: Found)
  {
    && Sums(item, BothCopies(g, selection, sources, vault, uid))
    && KeepsSource(selection, sources, uid, item) && KeepsVault(g, selection, vault, uid, item)
  }

  ghost predicate AllKnown(
    g: Grammar, selection: Selection, sources: seq<Source>, vault: seq<VaultDir>, found: FoundMap)
  {
    forall uid :: Known(g, selection, sources, vault, uid, Get(found, uid))
  }

  lemma AbsorbedVaultIsKnown(
    g: Grammar, repo: string, selection: Selection, sources: seq<Source>, vault: seq<VaultDir>, found: FoundMap,
    uid: string)
    requires vault != []
    requires var before := vault[..|vault| - 1];
             Known(g, selection, sources, before, uid, Get(found, uid)) &&
             AllAgree(BothCopies(g, selection, sources, before, uid))
    requires AbsorbVault(g, repo, selection, found, vault[|vault| - 1]).Ok?
    ensures Known(g, selection, sources, vault, uid,
                  Get(AbsorbVault(g, repo, selection, found, vault[|vault| - 1]).value, uid))
  {
    var before, last := vault[..|vault| - 1], vault[|vault| - 1];
    VaultCopiesOneMore(g, selection, vault, uid);
    AskedIsSelected(selection, last.name, last.experiment);
    if IsVaultCopy(g, selection, last, uid) {
      var copies, c := BothCopies(g, selection, sources, before, uid), Copy(last.meta.value, last.status);
      MergeSums(Get(found, uid), copies, c);
      assert BothCopies(g, selection, sources, vault, uid) == copies + {c};
      assert LastVault(g, selection, vault, uid, |vault| - 1);
    } else {
      assert Get(AbsorbVault(g, repo, selection, found, last).value, uid) == Get(found, uid);
      KeepsVaultOnward(g, selection, vault, uid, Get(found, uid));
    }
  }

  /** One more vault directory. */
  lemma AbsorbVaultIff(
    g: Grammar, repo: string, selection: Selection, sources: seq<Source>, vault: seq<VaultDir>, found: FoundMap)
    requires vault != []
    requires var before := vault[..|vault| - 1];
             AllKnown(g, selection, sources, before, found) &&
             forall uid :: AllAgree(BothCopies(g, selection, sources, before, uid))
    ensures var last := vault[|vault| - 1];
            AbsorbVault(g, repo, selection, found, last).Ok? <==>
            VaultFits(g, repo, selection, last) && (AsksVault(g, selection, last) ==>
              AllAgree(BothCopies(g, selection, sources, vault, last.name)))
    ensures AbsorbVault(g, repo, selection, found, vault[|vault| - 1]).Ok? ==>
            AllKnown(g, selection, sources, vault, AbsorbVault(g, repo, selection, found, vault[|vault| - 1]).value)
  {
    var before, last := vault[..|vault| - 1], vault[|vault| - 1];
    var r := AbsorbVault(g, repo, selection, found, last);
    AskedIsSelected(selection, last.name, last.experiment);
    if AsksVault(g, selection, last) && last.meta.Some? {
      var copies, c := BothCopies(g, selection, sources, before, last.name), Copy(last.meta.value, last.status);
      VaultCopiesOneMore(g, selection, vault, last.name);
      assert Known(g, selection, sources, before, last.name, Get(found, last.name)) && AllAgree(copies);
      assert BothCopies(g, selection, sources, vault, last.name) == copies + {c};
      MergeSums(Get(found, last.name), copies, c);
    }
    if r.Ok? {
      forall uid
        ensures Known(g, selection, sources, vault, uid, Get(r.value, uid))
      {
        assert Known(g, selection, sources, before, uid, Get(found, uid));
        AbsorbedVaultIsKnown(g, repo, selection, sources, vault, found, uid);
      }
    }
  }

  lemma VaultFitsOneMore(
    g: Grammar, repo: string, selection: Selection, sources: seq<Source>, vault: seq<VaultDir>)
    requires vault != []
    ensures var before, last := vault[..|vault| - 1], vault[|vault| - 1];
            VaultFitsToo(g, repo, selection, sources, vault) <==>
            VaultFitsToo(g, repo, selection, sources, before) && VaultFits(g, repo, selection, last) &&
            (AsksVault(g, selection, last) ==> AllAgree(BothCopies(g, selection, sources, vault, last.name)))
  {
    var before, last := vault[..|vault| - 1], vault[|vault| - 1];
    assert forall v :: v in vault <==> v in before || v == last by { assert vault == before + [last]; }
    forall uid
      ensures BothCopies(g, selection, sources, before, uid) <= BothCopies(g, selection, sources, vault, uid)
      ensures !(AsksVault(g, selection, last) && last.name == uid) ==>
              BothCopies(g, selection, sources, vault, uid) == BothCopies(g, selection, sources, before, uid)
    {
      VaultCopiesOneMore(g, selection, vault, uid);
    }
  }

  lemma {:induction false} VaultScanIff(
    g: Grammar, repo: string, selection: Selection, sources: seq<Source>, vault: seq<VaultDir>, found: FoundMap)
    requires AllSourceKnown(selection, sources, found) && forall uid :: AllAgree(SourceCopies(selection, sources, uid))
    ensures ScanVault(g, repo, selection, found, vault).Ok? <==> VaultFitsToo(g, repo, selection, sources, vault)
    ensures ScanVault(g, repo, selection, found, vault).Ok? ==>
            AllKnown(g, selection, sources, vault, ScanVault(g, repo, selection, found, vault).value)
  {
    if vault == [] {
      forall uid
        ensures Known(g, selection, sources, vault, uid, Get(found, uid))
        ensures AllAgree(BothCopies(g, selection, sources, vault, uid))
      {
        assert SourceKnown(selection, sources, uid, Get(found, uid));
        assert BothCopies(g, selection, sources, vault, uid) == SourceCopies(selection, sources, uid);
      }
    } else {
      var before, last := vault[..|vault| - 1], vault[|vault| - 1];
      VaultScanIff(g, repo, selection, sources, before, found);
      VaultFitsOneMore(g, repo, selection, sources, vault);
      if VaultFitsToo(g, repo, selection, sources, before) {
        AbsorbVaultIff(g, repo, selection, sources, vault, ScanVault(g, repo, selection, found, before).value);
      }
    }
  }

  /** The scans succeed if and only if the directories fit, and know of each run what its copies say. */
  lemma ScanIff(g: Grammar, w: World, repo: string, selection: Selection)
    ensures Scan(g, w, repo, selection).Ok? <==> DirectoriesFit(g, repo, selection, w)
    ensures Scan(g, w, repo, selection).Ok? ==>
            AllKnown(g, selection, w.sources, w.vault, Scan(g, w, repo, selection).value)
  {
    SourcesScanIff(g, repo, selection, w.sources);
    if SourcesFit(g, repo, selection, w.sources) {
      VaultScanIff(g, repo, selection, w.sources, w.vault, ScanSources(g, repo, selection, w.sources).value);
      forall uid
        ensures Copies(g, selection, w, uid) == BothCopies(g, selection, w.sources, w.vault, uid)
      {
      }
    } else if DirectoriesFit(g, repo, selection, w) {
      forall uid
        ensures AllAgree(SourceCopies(selection, w.sources, uid))
      {
        assert AllAgree(Copies(g, selection, w, uid));
      }
    }
  }

  // Tombstones

  predicate LineReads(g: Grammar, repo: string, l: Line) {
    match l
    case Blank => true
    case Garbage => false
    case Recorded(t) =>
      t.repoId == repo && g.runUid(t.runUid) && g.slug(t.experiment) && g.runSlug(t.runSlug) && !g.blank(t.reason)
  }

  /** The first line that records the run. */
  predicate FirstRecord(lines: seq<Line>, uid: string, i: nat) {
    && i < |lines| && lines[i].Recorded? && lines[i].tombstone.runUid == uid
    && forall j :: 0 <= j < i ==> !(lines[j].Recorded? && lines[j].tombstone.runUid == uid)
  }

  ghost predicate RecordedAs(lines: seq<Line>, uid: string, recorded: Option<Tombstone>) {
    match recorded
    case None => forall j :: 0 <= j < |lines| ==> !(lines[j].Recorded? && lines[j].tombstone.runUid == uid)
    case Some(t) => exists i: nat :: FirstRecord(lines, uid, i) && lines[i].tombstone == t
  }

  /** The file is read if and only if each line is blank or a valid record, and of a run the first record counts. */
  lemma {:induction false} ReadIff(g: Grammar, repo: string, lines: seq<Line>)
    ensures Read(g, repo, lines).Ok? <==> forall l :: l in lines ==> LineReads(g, repo, l)
    ensures Read(g, repo, lines).Ok? ==>
            forall uid :: RecordedAs(lines, uid, Existing(Read(g, repo, lines).value, uid))
  {
    if lines == [] {
      forall uid
        ensures RecordedAs(lines, uid, Existing(map[], uid))
      {
      }
    } else {
      var before, last := lines[..|lines| - 1], lines[|lines| - 1];
      ReadIff(g, repo, before);
      assert forall l :: l in lines <==> l in before || l == last by { assert lines == before + [last]; }
      ReadOneMore(g, repo, lines);
      if Read(g, repo, lines).Ok? {
        forall uid
          ensures RecordedAs(lines, uid, Existing(Read(g, repo, lines).value, uid))
        {
          RecordedOneMore(g, repo, lines, uid);
        }
      }
    }
  }

  lemma ReadOneMore(g: Grammar, repo: string, lines: seq<Line>)
    requires lines != []
    ensures Read(g, repo, lines).Ok? <==>
            Read(g, repo, lines[..|lines| - 1]).Ok? && LineReads(g, repo, lines[|lines| - 1])
  {
  }

  lemma ExistingOneMore(g: Grammar, repo: string, lines: seq<Line>, uid: string)
    requires lines != [] && Read(g, repo, lines).Ok?
    ensures var before, last := lines[..|lines| - 1], lines[|lines| - 1];
            && Read(g, repo, before).Ok?
            && var was := Existing(Read(g, repo, before).value, uid);
            Existing(Read(g, repo, lines).value, uid) ==
            if was.None? && last.Recorded? && last.tombstone.runUid == uid then Some(last.tombstone) else was
  {
  }

  lemma RecordedOneMore(g: Grammar, repo: string, lines: seq<Line>, uid: string)
    requires lines != [] && Read(g, repo, lines).Ok? && Read(g, repo, lines[..|lines| - 1]).Ok?
    requires RecordedAs(lines[..|lines| - 1], uid, Existing(Read(g, repo, lines[..|lines| - 1]).value, uid))
    ensures RecordedAs(lines, uid, Existing(Read(g, repo, lines).value, uid))
  {
    var before, last := lines[..|lines| - 1], lines[|lines| - 1];
    var was := Existing(Read(g, repo, before).value, uid);
    ExistingOneMore(g, repo, lines, uid);
    RecordedLater(lines, uid, was);
  }

  lemma RecordedLater(lines: seq<Line>, uid: string, was: Option<Tombstone>)
    requires lines != [] && RecordedAs(lines[..|lines| - 1], uid, was)
    ensures var last := lines[|lines| - 1];
            RecordedAs(lines, uid,
                       if was.None? && last.Recorded? && last.tombstone.runUid == uid then Some(last.tombstone)
                       else was)
  {
    var before, last := lines[..|lines| - 1], lines[|lines| - 1];
    assert forall j :: 0 <= j < |before| ==> before[j] == lines[j];
    if was.Some? {
      var i: nat :| FirstRecord(before, uid, i) && before[i].tombstone == was.value;
      assert FirstRecord(lines, uid, i);
    } else if last.Recorded? && last.tombstone.runUid == uid {
      assert FirstRecord(lines, uid, |lines| - 1);
    }
  }

  // The plan

  /** What a request has to be. */
  predicate Acceptable(g: Grammar, repo: string, request: Request) {
    && g.slug(repo) && !g.blank(request.reason)
    && match request.selection
       case RunUids(uids) => |uids| > 0 && forall i :: 0 <= i < |uids| ==> g.runUid(uids[i])
       case FailedExperiment(experiment) => g.slug(experiment)
  }

  predicate HasState(copies: set<Copy>, state: State) {
    exists c :: c in copies && c.status.Some? && c.status.value.state == state
  }

  /** The runs a request would delete: those it names, or those of its experiment that some copy calls failed. */
  ghost predicate IsTarget(g: Grammar, selection: Selection, w: World, uid: string) {
    match selection
    case RunUids(uids) => exists i :: 0 <= i < |uids| && uids[i] == uid
    case FailedExperiment(_) => HasState(Copies(g, selection, w, uid), Failed)
  }

  ghost predicate IsBuried(lines: seq<Line>, uid: string) {
    exists j :: 0 <= j < |lines| && lines[j].Recorded? && lines[j].tombstone.runUid == uid
  }

  /** The source directory that is kept of the run has no status: the run may still be going on. */
  ghost predicate Unfinished(selection: Selection, sources: seq<Source>, uid: string) {
    exists i: nat :: LastSource(selection, sources, uid, i) && sources[i].content.status.None?
  }

  /**
   A run may go when it is known to be over, and has failed or been buried already,
   or its success was to be included; or when nothing but its tombstone is left.
  */
  ghost predicate MayGo(g: Grammar, w: World, request: Request, uid: string) {
    var copies := Copies(g, request.selection, w, uid);
    if copies == {} then IsBuried(w.lines, uid)
    else
      && !Unfinished(request.selection, w.sources, uid)
      && (HasState(copies, Failed) ||
          (HasState(copies, Finished) && (request.includeSucceeded || IsBuried(w.lines, uid))))
  }

  ghost predicate Plannable(g: Grammar, w: World, repo: string, request: Request) {
    && Acceptable(g, repo, request)
    && (forall l :: l in w.lines ==> LineReads(g, repo, l))
    && DirectoriesFit(g, repo, request.selection, w)
    && forall uid :: IsTarget(g, request.selection, w, uid) ==> MayGo(g, w, request, uid)
  }

  lemma UnfinishedIff(selection: Selection, sources: seq<Source>, uid: string, item: Found)
    requires KeepsSource(selection, sources, uid, item)
    ensures item.unfinished <==> Unfinished(selection, sources, uid)
  {
    if item.source.Some? {
      var i: nat :| LastSource(selection, sources, uid, i) && sources[i].dir == item.source.value
                    && item.unfinished == sources[i].content.status.None?;
      forall j: nat | LastSource(selection, sources, uid, j)
        ensures j == i
      {
      }
    }
  }

  lemma BuriedIffRecorded(lines: seq<Line>, uid: string, recorded: Option<Tombstone>)
    requires RecordedAs(lines, uid, recorded)
    ensures recorded.Some? <==> IsBuried(lines, uid)
  {
  }

  lemma StateIsSummed(item: Found, copies: set<Copy>, state: State)
    requires Sums(item, copies)
    ensures HasState(copies, state) <==> item.status.Some? && item.status.value.state == state
  {
    if HasState(copies, state) {
      var c :| c in copies && c.status.Some? && c.status.value.state == state;
      assert Agree(c, Copy(item.meta.value, item.status));
    }
    if item.status.Some? && item.status.value.state == state {
      var c :| c in copies && c.status.Some?;
      assert Agree(c, Copy(item.meta.value, item.status));
    }
  }

  lemma UidPlansIff(
    g: Grammar, w: World, repo: string, request: Request, found: FoundMap, tombstones: map<string, Tombstone>,
    uid: string)
    requires Known(g, request.selection, w.sources, w.vault, uid, Get(found, uid))
    requires RecordedAs(w.lines, uid, Existing(tombstones, uid))
    ensures PlanUid(w, repo, request, found, tombstones, uid).Ok? <==> MayGo(g, w, request, uid)
  {
    var item, copies := Get(found, uid), Copies(g, request.selection, w, uid);
    UnfinishedIff(request.selection, w.sources, uid, item);
    BuriedIffRecorded(w.lines, uid, Existing(tombstones, uid));
    StateIsSummed(item, copies, Failed);
    StateIsSummed(item, copies, Finished);
  }

  lemma TargetIff(g: Grammar, w: World, selection: Selection, found: FoundMap, uid: string)
    requires Known(g, selection, w.sources, w.vault, uid, Get(found, uid))
    ensures uid in Targets(selection, found) <==> IsTarget(g, selection, w, uid)
  {
    StateIsSummed(Get(found, uid), Copies(g, selection, w, uid), Failed);
  }

  predicate Plans(
    w: World, repo: string, request: Request, found: FoundMap, tombstones: map<string, Tombstone>, uid: string)
  {
    PlanUid(w, repo, request, found, tombstones, uid).Ok?
  }

  lemma EachOneMore(
    w: World, repo: string, request: Request, found: FoundMap, tombstones: map<string, Tombstone>, uids: seq<string>)
    requires uids != []
    ensures PlanEach(w, repo, request, found, tombstones, uids).Ok? <==>
            PlanEach(w, repo, request, found, tombstones, uids[..|uids| - 1]).Ok? &&
            Plans(w, repo, request, found, tombstones, uids[|uids| - 1])
  {
  }

  lemma {:induction false} EachPlansIff(
    w: World, repo: string, request: Request, found: FoundMap, tombstones: map<string, Tombstone>, uids: seq<string>)
    ensures PlanEach(w, repo, request, found, tombstones, uids).Ok? <==>
            forall uid :: uid in uids ==> Plans(w, repo, request, found, tombstones, uid)
  {
    if uids != [] {
      var before, last := uids[..|uids| - 1], uids[|uids| - 1];
      EachPlansIff(w, repo, request, found, tombstones, before);
      EachOneMore(w, repo, request, found, tombstones, uids);
      assert forall uid :: uid in uids <==> uid in before || uid == last by { assert uids == before + [last]; }
    }
  }

  /** A request is planned if and only if it is acceptable, what it is about fits, and every target may go. */
  lemma PlanIff(g: Grammar, w: World, repo: string, request: Request)
    ensures Plan(g, w, repo, request).Ok? <==> Plannable(g, w, repo, request)
  {
    AcceptableIff(g, repo, request);
    ReadIff(g, repo, w.lines);
    ScanIff(g, w, repo, request.selection);
    if ValidRequest(g, repo, request) && Read(g, repo, w.lines).Ok? && Scan(g, w, repo, request.selection).Ok? {
      var tombstones, found := Read(g, repo, w.lines).value, Scan(g, w, repo, request.selection).value;
      var uids := SortedKeys(Targets(request.selection, found));
      EachPlansIff(w, repo, request, found, tombstones, uids);
      forall uid
        ensures uid in uids <==> IsTarget(g, request.selection, w, uid)
        ensures Plans(w, repo, request, found, tombstones, uid) <==> MayGo(g, w, request, uid)
      {
        assert Known(g, request.selection, w.sources, w.vault, uid, Get(found, uid));
        assert RecordedAs(w.lines, uid, Existing(tombstones, uid));
        assert uid in uids <==> uid in KeySet(uids);
        TargetIff(g, w, request.selection, found, uid);
        UidPlansIff(g, w, repo, request, found, tombstones, uid);
      }
    }
  }

  lemma AcceptableIff(g: Grammar, repo: string, request: Request)
    ensures ValidRequest(g, repo, request) <==> Acceptable(g, repo, request)
  {
    match request.selection
    case RunUids(uids) =>
      assert (forall uid :: uid in uids ==> g.runUid(uid)) <==> forall i :: 0 <= i < |uids| ==> g.runUid(uids[i]);
    case FailedExperiment(_) =>
  }
}
