/**
 Which syncs leave a guard that binds the next content of a file to the last.
 For a completed sync and for one that stopped anywhere, it is decided exactly
 from its plan and the bytes it sent.
*/
module SyncBindings {
  import opened Wrappers
  import opened TextOrder
  import opened SyncSteps
  import opened SyncReceipts
  import opened SyncHistory

  // A sync that stops keeps the guard binding, unless it has moved the file

  lemma EarlierLeaveGuarded(g: PlannedFile, path: string)
    requires Guarded(path) && Before(g.path, path)
    ensures !g.Touches(path) && !g.Touches(Zst(path))
  {
    BeforeTotal(g.path, path);
    ExtensionComesLater(path, ".zst");
    BeforeTotal(path, Zst(path));
    OthersLeaveGuarded(g, path);
  }

  lemma {:induction false} LeftAloneHolds(
    codec: Codec, held: Option<Bytes>, plan: seq<PlannedFile>, source: Files, name: string)
    requires LeftAlone(plan, name)
    ensures HeldAfterAll(codec, held, plan, source, name) == held
    decreases |plan|
  {
    if plan != [] {
      assert plan[0] in plan;
      LeftAloneHolds(codec, held, plan[1..], source, name);
    }
  }

  /** Whether these files move a guarded file out of the form that is listed. */
  predicate Moves(plan: seq<PlannedFile>, path: string, form: Compression) {
    PlannedFile(path, if form.Plain? then Zstd else Plain) in plan
  }

  /** No planned file has the compressed name of the guarded file, or it is not stored there. */
  predicate Apart(plan: seq<PlannedFile>, path: string, form: Compression) {
    form.Zstd? ==> !Listed(plan, Zst(path))
  }

  lemma OtherLeavesForm(g: PlannedFile, path: string, form: Compression)
    requires Guarded(path) && g.path != path && (form.Zstd? ==> g.path != Zst(path))
    ensures !g.Touches(FormOf(path, form))
  {
    if g.path == Zst(path) {
      GuardedNames(path);
      PartNames(g.StoredPath(), path);
      assert |g.StoredPath()| > |path| && |g.OtherPath()| > |path|;
    } else {
      OthersLeaveGuarded(g, path);
    }
  }

  lemma OthersLeaveForms(plan: seq<PlannedFile>, path: string, form: Compression)
    requires Guarded(path) && !Listed(plan, path) && Apart(plan, path, form)
    ensures LeftAlone(plan, FormOf(path, form))
  {
    forall g | g in plan
      ensures !g.Touches(FormOf(path, form))
    {
      OtherLeavesForm(g, path, form);
    }
  }

  lemma FirstIsOnly(plan: seq<PlannedFile>)
    requires Ordered(plan) && plan != []
    ensures Ordered(plan[1..]) && !Listed(plan[1..], plan[0].path)
  {
    BeforeTotal(plan[0].path, plan[0].path);
  }

  /** The guarded file itself is placed, in either form. */
  lemma PlacingItBinds(
    codec: Codec, d: Files, previous: Option<Receipt>, f: PlannedFile, y: Bytes, path: string, form: Compression,
    x: Bytes)
    requires codec.Faithful() && Guarded(path) && f.path == path && Armed(previous, path, form)
    requires Binds(codec, path, form, Held(d, FormOf(path, form)), x) && Guard(codec, d, previous, path, y).None?
    ensures var copied := HeldAfterCopy(codec, Held(d, FormOf(path, form)), f, y, FormOf(path, form));
            var placed := HeldAfter(codec, Held(d, FormOf(path, form)), f, y, FormOf(path, form));
            && Binds(codec, path, form, copied, x)
            && if f.compression == form then Binds(codec, path, form, placed, x) else placed.None?
  {
    GuardedNames(path);
    PartNames(f.StoredPath(), path);
    GuardPassesIff(codec, d, previous, path, y);
    if f.compression == form {
      assert codec.Load(form, codec.Store(form, y)) == Some(y);
    }
  }

  /** One more file placed: it is the guarded file in either form, or it is another. */
  lemma PlacingBinds(
    codec: Codec, d: Files, previous: Option<Receipt>, f: PlannedFile, y: Bytes, path: string, form: Compression,
    x: Bytes)
    requires codec.Faithful() && Guarded(path) && Armed(previous, path, form) && (form.Zstd? ==> f.path != Zst(path))
    requires Binds(codec, path, form, Held(d, FormOf(path, form)), x) && Guard(codec, d, previous, f.path, y).None?
    ensures var copied := HeldAfterCopy(codec, Held(d, FormOf(path, form)), f, y, FormOf(path, form));
            var placed := HeldAfter(codec, Held(d, FormOf(path, form)), f, y, FormOf(path, form));
            && Binds(codec, path, form, copied, x)
            && if Moves([f], path, form) then placed.None? else Binds(codec, path, form, placed, x)
  {
    if f.path == path {
      PlacingItBinds(codec, d, previous, f, y, path, form, x);
    } else {
      OtherLeavesForm(f, path, form);
    }
  }

  lemma MovedAtOnce(codec: Codec, plan: seq<PlannedFile>, source: Files, path: string, form: Compression)
    requires Guarded(path) && Ordered(plan) && Apart(plan, path, form) && plan != []
    requires plan[0].path == path
    ensures HeldAfterAll(codec, None, plan[1..], source, FormOf(path, form)) == None
  {
    assert forall g :: g in plan[1..] ==> g in plan;
    FirstIsOnly(plan);
    OthersLeaveForms(plan[1..], path, form);
    LeftAloneHolds(codec, None, plan[1..], source, FormOf(path, form));
  }

  lemma MovesAtFirstOrLater(plan: seq<PlannedFile>, path: string, form: Compression)
    requires plan != []
    ensures Moves(plan, path, form) <==> Moves([plan[0]], path, form) || Moves(plan[1..], path, form)
  {
    assert plan == [plan[0]] + plan[1..];
  }

  /** Nothing is left of the form once the file has been moved; until then it binds. */
  predicate MovedOrBinds(codec: Codec, path: string, form: Compression, held: Option<Bytes>, x: Bytes, moved: bool) {
    if moved then held.None? else Binds(codec, path, form, held, x)
  }

  lemma FirstStep(
    codec: Codec, d: Files, previous: Option<Receipt>, plan: seq<PlannedFile>, source: Files, written: seq<SyncedFile>)
    requires plan != [] && Steps(codec, d, previous, plan, source, written).result.Ok?
    ensures plan[0].path in source && Guard(codec, d, previous, plan[0].path, source[plan[0].path]).None?
    ensures var y := source[plan[0].path];
            Steps(codec, Placed(codec, d, plan[0], y), previous, plan[1..], source,
                  written + [plan[0].Synced(codec, y)]).result.Ok?
  {
  }

  lemma HeldStep(codec: Codec, d: Files, plan: seq<PlannedFile>, source: Files, name: string)
    requires plan != [] && plan[0].path in source
    ensures HeldAfterAll(codec, Held(d, name), plan, source, name) ==
            HeldAfterAll(codec, Held(Placed(codec, d, plan[0], source[plan[0].path]), name), plan[1..], source, name)
  {
    var f, y := plan[0], source[plan[0].path];
    assert Held(Placed(codec, d, f, y), name) == HeldAfter(codec, Held(d, name), f, y, name);
  }

  lemma RestIsApart(plan: seq<PlannedFile>, path: string, form: Compression)
    requires Ordered(plan) && Apart(plan, path, form) && plan != []
    ensures Ordered(plan[1..]) && Apart(plan[1..], path, form) && (form.Zstd? ==> plan[0].path != Zst(path))
  {
    assert plan[0] in plan && forall g :: g in plan[1..] ==> g in plan;
  }

  lemma {:induction false} StepsStayBound(
    codec: Codec, d: Files, previous: Option<Receipt>, plan: seq<PlannedFile>, source: Files, written: seq<SyncedFile>,
    path: string, form: Compression, x: Bytes)
    requires codec.Faithful() && Guarded(path) && Ordered(plan) && Apart(plan, path, form)
    requires Armed(previous, path, form) && Binds(codec, path, form, Held(d, FormOf(path, form)), x)
    requires Steps(codec, d, previous, plan, source, written).result.Ok?
    ensures MovedOrBinds(codec, path, form,
                         HeldAfterAll(codec, Held(d, FormOf(path, form)), plan, source, FormOf(path, form)), x,
                         Moves(plan, path, form))
    decreases |plan|
  {
    if plan != [] {
      FirstStep(codec, d, previous, plan, source, written);
      var f, y, name := plan[0], source[plan[0].path], FormOf(path, form);
      var next := Placed(codec, d, f, y);
      HeldStep(codec, d, plan, source, name);
      RestIsApart(plan, path, form);
      assert MovedOrBinds(codec, path, form, Held(next, name), x, Moves([f], path, form)) by {
        assert Held(next, name) == HeldAfter(codec, Held(d, name), f, y, name);
        PlacingBinds(codec, d, previous, f, y, path, form, x);
      }
      MovesAtFirstOrLater(plan, path, form);
      if Moves([f], path, form) {
        MovedAtOnce(codec, plan, source, path, form);
      } else {
        StepsStayBound(codec, next, previous, plan[1..], source, written + [f.Synced(codec, y)], path, form, x);
      }
    }
  }

  // A planned file with the compressed name of the guarded file

  /** The last file that touches a name decides what it holds. */
  lemma {:induction false} LastTouchDecides(
    codec: Codec, held: Option<Bytes>, plan: seq<PlannedFile>, i: nat, source: Files, name: string)
    requires i < |plan| && LeftAlone(plan[i + 1..], name)
    ensures HeldAfterAll(codec, held, plan, source, name) ==
            HeldAfter(codec, HeldAfterAll(codec, held, plan[..i], source, name), plan[i], Content(source, plan[i].path),
                name)
    decreases |plan|
  {
    if i == 0 {
      LeftAloneHolds(codec, HeldAfter(codec, held, plan[0], Content(source, plan[0].path), name), plan[1..], source,
          name);
    } else {
      assert plan[1..][i - 1 + 1..] == plan[i + 1..] && plan[1..][..i - 1] == plan[..i][1..];
      LastTouchDecides(codec, HeldAfter(codec, held, plan[0], Content(source, plan[0].path), name), plan[1..], i - 1,
                       source, name);
    }
  }

  lemma LaterLeaveCompressedName(plan: seq<PlannedFile>, i: nat, path: string)
    requires Ordered(plan) && i < |plan| && plan[i].path == Zst(path)
    ensures LeftAlone(plan[i + 1..], Zst(path))
  {
    forall r | r in plan[i + 1..]
      ensures !r.Touches(Zst(path))
    {
      LaterLeavesCompressedName(PlannedFile(path, Zstd), plan[i], r);
    }
  }

  /** A file with that name is stored there, or removes what is there because it is stored compressed itself. */
  lemma NamesakeDecides(codec: Codec, held: Option<Bytes>, plan: seq<PlannedFile>, source: Files, path: string)
    requires Ordered(plan) && Listed(plan, Zst(path))
    ensures Planned(plan, Zst(path)).Some?
    ensures HeldAfterAll(codec, held, plan, source, Zst(path)) ==
            if Planned(plan, Zst(path)).value.compression.Plain? then Some(Content(source, Zst(path))) else None
  {
    PlannedIsListed(plan, Zst(path));
    var q := Planned(plan, Zst(path)).value;
    var i :| 0 <= i < |plan| && plan[i] == q;
    LaterLeaveCompressedName(plan, i, path);
    LastTouchDecides(codec, held, plan, i, source, Zst(path));
  }

  /** Bytes that, taken for the compressed form of the guarded file, do not continue `x`. */
  predicate Foreign(codec: Codec, path: string, x: Bytes, bytes: Bytes) {
    codec.decode(bytes).Some? && !Continues(path, x, codec.decode(bytes).value)
  }

  /** What the listed form of a guarded file goes through when these files are placed leaves it binding. */
  predicate Keeps(
    codec: Codec, plan: seq<PlannedFile>, source: Files, path: string, form: Compression, x: Bytes)
  {
    match if form.Zstd? then Planned(plan, Zst(path)) else None
    case Some(q) => q.compression.Plain? && !Foreign(codec, path, x, Content(source, Zst(path)))
    case None => !Moves(plan, path, form)
  }

  lemma StepsKeepIff(
    codec: Codec, d: Files, previous: Option<Receipt>, plan: seq<PlannedFile>, source: Files,
    path: string, form: Compression, x: Bytes)
    requires codec.Faithful() && Guarded(path) && Ordered(plan)
    requires Armed(previous, path, form) && Binds(codec, path, form, Held(d, FormOf(path, form)), x)
    requires Steps(codec, d, previous, plan, source, []).result.Ok?
    ensures Binds(codec, path, form,
                  HeldAfterAll(codec, Held(d, FormOf(path, form)), plan, source, FormOf(path, form)), x)
            <==> Keeps(codec, plan, source, path, form, x)
  {
    PlannedIsListed(plan, Zst(path));
    if Apart(plan, path, form) {
      StepsStayBound(codec, d, previous, plan, source, [], path, form, x);
    } else {
      NamesakeDecides(codec, Held(d, Zst(path)), plan, source, path);
    }
  }

  /** The sync was stopped between the two renames of a file that is stored under the listed form's name. */
  predicate TornOver(a: Attempt, path: string, form: Compression)
    requires a.Stopped?
  {
    a.torn.TwoForms? && a.done < |a.plan| && form.Zstd? && a.plan[a.done] == PlannedFile(Zst(path), Plain)
  }

  /** The way a stopped sync got leaves the listed form binding. */
  predicate StoppedKeeps(codec: Codec, a: Attempt, path: string, form: Compression, x: Bytes)
    requires a.Stopped? && a.done <= |a.plan|
  {
    if TornOver(a, path, form) then !Foreign(codec, path, x, Content(a.source, Zst(path)))
    else Keeps(codec, a.plan[..a.done], a.source, path, form, x)
  }

  /** Before the guarded file is placed, nothing has touched it. */
  lemma EarlierKeep(
    codec: Codec, plan: seq<PlannedFile>, i: nat, source: Files, path: string, form: Compression, x: Bytes)
    requires Ordered(plan) && i < |plan| && plan[i].path == path
    ensures Keeps(codec, plan[..i], source, path, form, x)
  {
    PlannedIsListed(plan[..i], Zst(path));
    forall g | g in plan[..i]
      ensures g.path != path && g.path != Zst(path)
    {
      BeforeTotal(g.path, path);
      ExtensionComesLater(path, ".zst");
      BeforeTotal(path, Zst(path));
    }
  }

  /** A file torn between its two renames: the guarded file, the one with its compressed name, or another. */
  lemma TornOverNothing(codec: Codec, held: Option<Bytes>, f: PlannedFile, y: Bytes, path: string, form: Compression)
    requires Guarded(path) && f != PlannedFile(path, form) && !(form.Zstd? && f == PlannedFile(Zst(path), Plain))
    ensures HeldAfterCopy(codec, held, f, y, FormOf(path, form)) == held
  {
    GuardedNames(path);
    PartNames(f.StoredPath(), path);
    if f.path != path && f.path != Zst(path) { OthersLeaveGuarded(f, path); }
  }

  lemma TornBindsIff(codec: Codec, d: Files, runKey: string, a: Attempt, path: string, l: Ledger)
    requires codec.Faithful() && Guarded(path) && !Listed(a.plan, RECEIPT)
    requires a.Stopped? && Possible(codec, d, runKey, a) && Tracks(codec, d, path, l)
    requires var whole := HeldAfterAll(codec, l.held, a.plan[..a.done], a.source, FormOf(path, l.form));
             Binds(codec, path, l.form, whole, l.sent) <==>
                 Keeps(codec, a.plan[..a.done], a.source, path, l.form, l.sent)
    ensures Binds(codec, path, l.form, Note(codec, l, a, path).held, l.sent) <==>
            StoppedKeeps(codec, a, path, l.form, l.sent)
  {
    if a.done < |a.plan| && !a.torn.Clean? {
      var f, name := a.plan[a.done], FormOf(path, l.form);
      GuardedNames(path);
      PartNames(f.StoredPath(), path);
      if a.torn.TwoForms? {
        ReachedTracks(codec, d, runKey, a, name);
        if f == PlannedFile(path, l.form) {
          EarlierKeep(codec, a.plan, a.done, a.source, path, l.form, l.sent);
          PlacingItBinds(codec, Reached(codec, d, a).files, ReceiptAt(codec, d).value, f, a.source[f.path], path,
              l.form,
                         l.sent);
        } else if !TornOver(a, path, l.form) {
          TornOverNothing(codec, HeldAfterAll(codec, l.held, a.plan[..a.done], a.source, name), f,
                          Content(a.source, f.path), path, l.form);
        }
      }
    }
  }

  /**
   From a binding guard, a sync that stops leaves a binding guard if and only if
   it had not yet moved the file to its other form, nor put another file's bytes
   in its place.
  */
  lemma StoppedBindsIff(codec: Codec, d: Files, runKey: string, a: Attempt, path: string, l: Ledger)
    requires codec.Faithful() && Guarded(path) && !Listed(a.plan, RECEIPT)
    requires a.Stopped? && Possible(codec, d, runKey, a) && Tracks(codec, d, path, l)
    requires Binds(codec, path, l.form, l.held, l.sent)
    ensures Binds(codec, path, l.form, Note(codec, l, a, path).held, l.sent) <==>
            StoppedKeeps(codec, a, path, l.form, l.sent)
  {
    assert Ordered(a.plan[..a.done]);
    StepsKeepIff(codec, d, ReceiptAt(codec, d).value, a.plan[..a.done], a.source, path, l.form, l.sent);
    TornBindsIff(codec, d, runKey, a, path, l);
  }

  // A completed sync leaves a binding guard

  lemma LaterLeaveTheForm(plan: seq<PlannedFile>, i: nat, form: Compression)
    requires i < |plan| && Ordered(plan) && Guarded(plan[i].path) && Apart(plan, plan[i].path, form)
    ensures LeftAlone(plan[i + 1..], FormOf(plan[i].path, form))
  {
    var path := plan[i].path;
    BeforeTotal(path, path);
    assert forall g :: g in plan[i + 1..] ==> g in plan;
    OthersLeaveForms(plan[i + 1..], path, form);
  }

  /** What a completed sync leaves under the name its receipt lists for a guarded file. */
  lemma CompletedLeaves(codec: Codec, a: Attempt, path: string, l: Ledger)
    requires Guarded(path) && Sends(a, path) && Ordered(a.plan)
    ensures Planned(a.plan, path).Some?
    ensures var form := Planned(a.plan, path).value.compression;
            Note(codec, l, a, path).held ==
            if Apart(a.plan, path, form) then Some(codec.Store(form, Content(a.source, path)))
            else if PlannedFile(Zst(path), Plain) in a.plan then Some(Content(a.source, Zst(path)))
            else None
  {
    PlannedIsListed(a.plan, path);
    PlannedIsListed(a.plan, Zst(path));
    var f := Planned(a.plan, path).value;
    if Apart(a.plan, path, f.compression) {
      var i :| 0 <= i < |a.plan| && a.plan[i] == f;
      LaterLeaveTheForm(a.plan, i, f.compression);
      LastTouchDecides(codec, None, a.plan, i, a.source, f.StoredPath());
    } else {
      NamesakeDecides(codec, None, a.plan, a.source, path);
      PlannedOnce(a.plan, Zst(path));
    }
  }

  lemma {:induction false} PlannedOnce(plan: seq<PlannedFile>, path: string)
    requires Ordered(plan)
    ensures forall g :: g in plan && g.path == path ==> Planned(plan, path) == Some(g)
  {
    if plan != [] {
      FirstIsOnly(plan);
      PlannedOnce(plan[1..], path);
      assert plan == [plan[0]] + plan[1..];
    }
  }

  /**
   The plan stores the guarded file compressed, and another file removes that
   form, or takes its place with bytes that do not continue it.
  */
  predicate Overrides(codec: Codec, a: Attempt, path: string) {
    && PlannedFile(path, Zstd) in a.plan && Listed(a.plan, Zst(path))
    && (PlannedFile(Zst(path), Plain) in a.plan ==>
          Foreign(codec, path, Content(a.source, path), Content(a.source, Zst(path))))
  }

  /**
   A completed sync leaves a guard that binds the next content to what it sent,
   unless its own plan overrides that.
  */
  lemma CompletedBindsIff(codec: Codec, d: Files, runKey: string, a: Attempt, path: string, l: Ledger)
    requires codec.Faithful() && Guarded(path) && Sends(a, path) && Possible(codec, d, runKey, a)
    ensures var m := Note(codec, l, a, path);
            Binds(codec, path, m.form, m.held, m.sent) <==> !Overrides(codec, a, path)
  {
    CompletedLeaves(codec, a, path, l);
    PlannedIsListed(a.plan, path);
    PlannedOnce(a.plan, path);
    var x := Content(a.source, path);
    assert Continues(path, x, x);
  }
}
