/**
 What a receipt promises: every file it lists is at the destination in exactly
 one of its two forms, and reads back as the bytes that were sent. This holds
 exactly when no two planned files meet in one compressed name, and none takes
 the receipt's own name.
*/
module SyncReceipts {
  import opened Wrappers
  import opened TextOrder
  import opened SyncSteps

  predicate Available(plan: seq<PlannedFile>, source: Files) {
    forall f :: f in plan ==> f.path in source
  }

  /** The destination once every file of the plan has been placed. */
  function After(codec: Codec, d: Files, plan: seq<PlannedFile>, source: Files): Files
    requires Available(plan, source)
    decreases |plan|
  {
    if plan == [] then d else After(codec, Placed(codec, d, plan[0], source[plan[0].path]), plan[1..], source)
  }

  function Entries(codec: Codec, plan: seq<PlannedFile>, source: Files): seq<SyncedFile>
    requires Available(plan, source)
    decreases |plan|
  {
    if plan == [] then [] else [plan[0].Synced(codec, source[plan[0].path])] + Entries(codec, plan[1..], source)
  }

  lemma FirstEntry(codec: Codec, plan: seq<PlannedFile>, source: Files, written: seq<SyncedFile>)
    requires plan != [] && plan[0].path in source && Available(plan[1..], source)
    ensures Available(plan, source)
    ensures var entry := plan[0].Synced(codec, source[plan[0].path]);
            written + [entry] + Entries(codec, plan[1..], source) == written + Entries(codec, plan, source)
  {
    assert plan == [plan[0]] + plan[1..];
    var entry := plan[0].Synced(codec, source[plan[0].path]);
    assert written + [entry] + Entries(codec, plan[1..], source) ==
        written + ([entry] + Entries(codec, plan[1..], source));
  }

  /** A copying loop that is not refused has placed every file and recorded each in turn. */
  lemma {:induction false} StepsPlaceEverything(
    codec: Codec, d: Files, previous: Option<Receipt>, plan: seq<PlannedFile>, source: Files, written: seq<SyncedFile>)
    requires Steps(codec, d, previous, plan, source, written).result.Ok?
    ensures Available(plan, source)
    ensures Steps(codec, d, previous, plan, source, written) ==
            Progress(After(codec, d, plan, source), Ok(written + Entries(codec, plan, source)))
    decreases |plan|
  {
    if plan == [] {
      assert written + [] == written;
    } else {
      var f := plan[0];
      StepsPlaceEverything(codec, Placed(codec, d, f, source[f.path]), previous, plan[1..], source,
                           written + [f.Synced(codec, source[f.path])]);
      FirstEntry(codec, plan, source, written);
    }
  }

  lemma {:induction false} AfterInTwoParts(
    codec: Codec, d: Files, a: seq<PlannedFile>, b: seq<PlannedFile>, source: Files)
    requires Available(a + b, source)
    ensures Available(a, source) && Available(b, source)
    ensures After(codec, d, a + b, source) == After(codec, After(codec, d, a, source), b, source)
    decreases |a|
  {
    assert forall f :: f in a || f in b ==> f in a + b;
    if a == [] {
      assert a + b == b;
    } else {
      assert (a + b)[1..] == a[1..] + b;
      AfterInTwoParts(codec, Placed(codec, d, a[0], source[a[0].path]), a[1..], b, source);
    }
  }

  ghost predicate LeftAlone(plan: seq<PlannedFile>, path: string) {
    forall f :: f in plan ==> !f.Touches(path)
  }

  /** The two maps say the same about a path. */
  ghost predicate SameAt(a: Files, b: Files, path: string) {
    (path in a <==> path in b) && (path in a ==> a[path] == b[path])
  }

  lemma {:induction false} UntouchedStays(codec: Codec, d: Files, plan: seq<PlannedFile>, source: Files, path: string)
    requires Available(plan, source) && LeftAlone(plan, path)
    ensures SameAt(After(codec, d, plan, source), d, path)
    decreases |plan|
  {
    if plan != [] {
      assert plan[0] in plan;
      UntouchedStays(codec, Placed(codec, d, plan[0], source[plan[0].path]), plan[1..], source, path);
    }
  }

  /** The file is there in its planned form only, and that form holds the content. */
  predicate ReadsBack(codec: Codec, d: Files, f: PlannedFile, content: Bytes) {
    && f.StoredPath() in d
    && codec.Load(f.compression, d[f.StoredPath()]) == Some(content)
    && f.OtherPath() !in d
  }

  /** Two planned files that cannot both be kept: one would be stored, or looked for, under the other's name. */
  predicate Clash(codec: Codec, p: PlannedFile, q: PlannedFile, source: Files)
    requires p.path in source && q.path in source
  {
    && q.path == Zst(p.path)
    && !(p.compression.Plain? && q.compression.Zstd?)
    && !(p.compression.Zstd? && q.compression.Plain? && codec.decode(source[q.path]) == Some(source[p.path]))
  }

  predicate Unclashed(codec: Codec, plan: seq<PlannedFile>, source: Files, p: PlannedFile)
    requires Available(plan, source) && p in plan
  {
    forall q :: q in plan ==> !Clash(codec, p, q, source)
  }

  predicate NoClash(codec: Codec, plan: seq<PlannedFile>, source: Files)
    requires Available(plan, source)
  {
    forall p :: p in plan ==> Unclashed(codec, plan, source, p)
  }

  lemma PlacingReadsBack(codec: Codec, d: Files, f: PlannedFile, content: Bytes)
    requires codec.Faithful()
    ensures ReadsBack(codec, Placed(codec, d, f, content), f, content)
  {
  }

  /** Where placing a later file can meet an earlier one. */
  lemma LaterFilesMeet(f: PlannedFile, g: PlannedFile)
    requires Before(f.path, g.path)
    ensures g.PartPath() != f.StoredPath()
    ensures g.StoredPath() == f.StoredPath() ==> f.compression.Zstd? && g.compression.Plain? && g.path == Zst(f.path)
    ensures g.StoredPath() == f.OtherPath() ==> f.compression.Plain? && g.compression.Plain? && g.path == Zst(f.path)
    ensures g.OtherPath() == f.StoredPath() ==> f.compression.Zstd? && g.compression.Zstd? && g.path == Zst(f.path)
  {
    BeforeTotal(f.path, g.path);
    ExtensionComesLater(g.path, ".zst");
    PartPathComesLater(g);
    PartNames(g.StoredPath(), f.path);
    if Zst(f.path) == Zst(g.path) { ZstInjective(f.path, g.path); }
  }

  lemma LaterFileKeeps(codec: Codec, d: Files, f: PlannedFile, g: PlannedFile, source: Files)
    requires f.path in source && g.path in source && Before(f.path, g.path)
    requires ReadsBack(codec, d, f, source[f.path]) && !Clash(codec, f, g, source)
    ensures ReadsBack(codec, Placed(codec, d, g, source[g.path]), f, source[f.path])
  {
    LaterFilesMeet(f, g);
  }

  lemma {:induction false} LaterFilesKeep(
    codec: Codec, d: Files, f: PlannedFile, later: seq<PlannedFile>, source: Files)
    requires f.path in source && Available(later, source)
    requires ReadsBack(codec, d, f, source[f.path])
    requires forall g :: g in later ==> Before(f.path, g.path) && !Clash(codec, f, g, source)
    ensures ReadsBack(codec, After(codec, d, later, source), f, source[f.path])
    decreases |later|
  {
    if later != [] {
      var g := later[0];
      LaterFileKeeps(codec, d, f, g, source);
      LaterFilesKeep(codec, Placed(codec, d, g, source[g.path]), f, later[1..], source);
    }
  }

  /** The plan split at one of its files. */
  lemma SplitAt(codec: Codec, d: Files, plan: seq<PlannedFile>, i: nat, source: Files) returns (before: Files)
    requires Ordered(plan) && Available(plan, source) && i < |plan|
    ensures Available(plan[i + 1..], source)
    ensures forall g :: g in plan[i + 1..] ==> g in plan && Before(plan[i].path, g.path)
    ensures After(codec, d, plan, source) == After(codec, Placed(codec, before, plan[i], source[plan[i].path]),
        plan[i + 1..], source)
  {
    assert plan == plan[..i] + plan[i..];
    AfterInTwoParts(codec, d, plan[..i], plan[i..], source);
    before := After(codec, d, plan[..i], source);
    assert plan[i..][1..] == plan[i + 1..];
  }

  lemma UnclashedReadsBack(codec: Codec, d: Files, plan: seq<PlannedFile>, source: Files, f: PlannedFile)
    requires codec.Faithful() && Ordered(plan) && Available(plan, source) && f in plan &&
        Unclashed(codec, plan, source, f)
    ensures ReadsBack(codec, After(codec, d, plan, source), f, source[f.path])
  {
    var i :| 0 <= i < |plan| && plan[i] == f;
    var before := SplitAt(codec, d, plan, i, source);
    PlacingReadsBack(codec, before, f, source[f.path]);
    LaterFilesKeep(codec, Placed(codec, before, f, source[f.path]), f, plan[i + 1..], source);
  }

  lemma LaterLeavesCompressedName(p: PlannedFile, q: PlannedFile, r: PlannedFile)
    requires q.path == Zst(p.path) && Before(q.path, r.path)
    ensures !r.Touches(q.path)
  {
    BeforeTotal(q.path, r.path);
    ExtensionComesLater(p.path, ".zst");
    PartNames(r.StoredPath(), p.path);
    if Zst(r.path) == Zst(p.path) { ZstInjective(r.path, p.path); }
  }

  lemma ClashLosesTheFile(codec: Codec, d: Files, after: Files, p: PlannedFile, q: PlannedFile, source: Files)
    requires p.path in source && q.path in source && Clash(codec, p, q, source)
    requires SameAt(after, Placed(codec, d, q, source[q.path]), q.path)
    ensures !ReadsBack(codec, after, p, source[p.path])
  {
    PartNames(q.StoredPath(), p.path);
  }

  lemma ClashingFileIsLost(
    codec: Codec, d: Files, plan: seq<PlannedFile>, source: Files, p: PlannedFile, q: PlannedFile)
    requires Ordered(plan) && Available(plan, source) && p in plan && q in plan && Clash(codec, p, q, source)
    ensures !ReadsBack(codec, After(codec, d, plan, source), p, source[p.path])
  {
    var j :| 0 <= j < |plan| && plan[j] == q;
    var before := SplitAt(codec, d, plan, j, source);
    forall r | r in plan[j + 1..]
      ensures !r.Touches(q.path)
    {
      LaterLeavesCompressedName(p, q, r);
    }
    UntouchedStays(codec, Placed(codec, before, q, source[q.path]), plan[j + 1..], source, q.path);
    ClashLosesTheFile(codec, before, After(codec, d, plan, source), p, q, source);
  }

  /** What the receipt of a plan promises of a destination. */
  ghost predicate Kept(codec: Codec, d: Files, plan: seq<PlannedFile>, source: Files)
    requires Available(plan, source)
  {
    forall f :: f in plan ==> ReadsBack(codec, d, f, source[f.path])
  }

  lemma ReadsBackIffUnclashed(codec: Codec, d: Files, plan: seq<PlannedFile>, source: Files, f: PlannedFile)
    requires codec.Faithful() && Ordered(plan) && Available(plan, source) && f in plan
    ensures ReadsBack(codec, After(codec, d, plan, source), f, source[f.path]) <==> Unclashed(codec, plan, source, f)
  {
    if Unclashed(codec, plan, source, f) {
      UnclashedReadsBack(codec, d, plan, source, f);
    } else {
      var q :| q in plan && Clash(codec, f, q, source);
      ClashingFileIsLost(codec, d, plan, source, f, q);
    }
  }

  /** Before the receipt is written, every file reads back exactly when no two clash. */
  lemma KeptIffNoClash(codec: Codec, d: Files, plan: seq<PlannedFile>, source: Files)
    requires codec.Faithful() && Ordered(plan) && Available(plan, source)
    ensures Kept(codec, After(codec, d, plan, source), plan, source) <==> NoClash(codec, plan, source)
  {
    forall f | f in plan
      ensures ReadsBack(codec, After(codec, d, plan, source), f, source[f.path]) <==> Unclashed(codec, plan, source, f)
    {
      ReadsBackIffUnclashed(codec, d, plan, source, f);
    }
  }

  // The receipt's own name

  lemma ReceiptNameIsApart(f: PlannedFile)
    requires f.path != RECEIPT
    ensures !f.Touches(RECEIPT)
  {
    assert RECEIPT[|RECEIPT| - 1] == 'n';
    PartNames(f.StoredPath(), f.path);
    assert Zst(f.path)[|Zst(f.path)| - 1] == 't';
  }

  /** A planned file that the receipt is written over, or beside as a second form of it. */
  predicate Overwritten(f: PlannedFile, source: Files, receipt: Bytes)
    requires f.path in source
  {
    f.path == RECEIPT && !(f.compression.Plain? && source[RECEIPT] == receipt)
  }

  lemma LaterLeaveTheReceipt(f: PlannedFile, later: seq<PlannedFile>)
    requires f.path == RECEIPT && forall g :: g in later ==> Before(f.path, g.path)
    ensures LeftAlone(later, RECEIPT)
  {
    forall g | g in later
      ensures !g.Touches(RECEIPT)
    {
      BeforeTotal(f.path, g.path);
      ReceiptNameIsApart(g);
    }
  }

  lemma NamesakeIsPlaced(codec: Codec, d: Files, plan: seq<PlannedFile>, source: Files, f: PlannedFile)
    requires Ordered(plan) && Available(plan, source) && f in plan && f.path == RECEIPT && f.compression.Plain?
    ensures RECEIPT in After(codec, d, plan, source) && After(codec, d, plan, source)[RECEIPT] == source[RECEIPT]
  {
    var i :| 0 <= i < |plan| && plan[i] == f;
    var before := SplitAt(codec, d, plan, i, source);
    assert LeftAlone(plan[i + 1..], RECEIPT) by { LaterLeaveTheReceipt(f, plan[i + 1..]); }
    UntouchedStays(codec, Placed(codec, before, f, source[f.path]), plan[i + 1..], source, RECEIPT);
  }

  lemma UnderTheReceipt(codec: Codec, d: Files, receipt: Bytes, plan: seq<PlannedFile>, source: Files, f: PlannedFile)
    requires Ordered(plan) && Available(plan, source) && f in plan
    ensures var after := After(codec, d, plan, source);
            ReadsBack(codec, after[RECEIPT := receipt], f, source[f.path]) <==>
            ReadsBack(codec, after, f, source[f.path]) && !Overwritten(f, source, receipt)
  {
    if f.path != RECEIPT {
      ReceiptNameIsApart(f);
    } else if f.compression.Plain? {
      NamesakeIsPlaced(codec, d, plan, source, f);
    }
  }

  /**
   A sync that succeeds leaves its files as its receipt says, exactly when no
   two of them clash and none has the receipt's name, unless uncompressed and
   with the receipt's very bytes.
  */
  lemma ReceiptHoldsIff(codec: Codec, d: Files, runKey: string, plan: seq<PlannedFile>, source: Files)
    requires codec.Faithful() && Ordered(plan)
    requires Execution(codec, d, runKey, plan, source).result.Ok?
    ensures Available(plan, source)
    ensures
      var e := Execution(codec, d, runKey, plan, source);
      && ReceiptAt(codec, e.files) == Ok(Some(e.result.value.receipt))
      && e.result.value.receipt.files == Entries(codec, plan, source)
      && (Kept(codec, e.files, plan, source) <==>
          NoClash(codec, plan, source) &&
          forall f :: f in plan ==> !Overwritten(f, source, codec.write(e.result.value.receipt)))
  {
    var previous := ReceiptAt(codec, d).value;
    StepsPlaceEverything(codec, d, previous, plan, source, []);
    var e := Execution(codec, d, runKey, plan, source);
    assert [] + Entries(codec, plan, source) == Entries(codec, plan, source);
    KeptIffNoClash(codec, d, plan, source);
    forall f | f in plan
      ensures ReadsBack(codec, e.files, f, source[f.path]) <==>
              ReadsBack(codec, After(codec, d, plan, source), f, source[f.path]) &&
              !Overwritten(f, source, codec.write(e.result.value.receipt))
    {
      UnderTheReceipt(codec, d, codec.write(e.result.value.receipt), plan, source, f);
    }
  }

  // Plans that succeed and lose a file

  lemma {:induction false} NothingIsGuarded(
    codec: Codec, d: Files, plan: seq<PlannedFile>, source: Files, written: seq<SyncedFile>)
    requires Available(plan, source)
    ensures Steps(codec, d, None, plan, source, written).result.Ok?
    decreases |plan|
  {
    if plan != [] {
      var f := plan[0];
      NothingIsGuarded(codec, Placed(codec, d, f, source[f.path]), plan[1..], source,
          written + [f.Synced(codec, source[f.path])]);
    }
  }

  lemma FirstSyncSucceeds(codec: Codec, d: Files, runKey: string, plan: seq<PlannedFile>, source: Files)
    requires Available(plan, source) && RECEIPT !in d
    ensures Execution(codec, d, runKey, plan, source).result.Ok?
  {
    NothingIsGuarded(codec, d, plan, source, []);
  }

  /**
   A file sent compressed, and an empty one whose name is its compressed name: the
   second is stored over the first. Compression is chosen by size, above nothing.
  */
  lemma ClashingPlanSucceeds(codec: Codec, runKey: string) returns (plan: seq<PlannedFile>, source: Files)
    requires codec.Faithful()
    ensures Ordered(plan) && Available(plan, source) && !Listed(plan, RECEIPT)
    ensures forall f :: f in plan ==> (f.compression.Zstd? <==> |source[f.path]| > 0)
    ensures Execution(codec, map[], runKey, plan, source).result.Ok?
    ensures !Kept(codec, Execution(codec, map[], runKey, plan, source).files, plan, source)
  {
    var f, g := PlannedFile("a", Zstd), PlannedFile(Zst("a"), Plain);
    var x: Bytes := if codec.decode([]) == Some([0]) then [1] else [0];
    plan, source := [f, g], map[f.path := x, g.path := []];
    ExtensionComesLater("a", ".zst");
    FirstSyncSucceeds(codec, map[], runKey, plan, source);
    assert f in plan && g in plan && Clash(codec, f, g, source);
    ReceiptHoldsIff(codec, map[], runKey, plan, source);
  }

  /** A file under the receipt's name, sent compressed, is lost whatever it holds. */
  lemma CompressedNamesakeIsLost(codec: Codec, d: Files, runKey: string, plan: seq<PlannedFile>, source: Files)
    requires codec.Faithful() && Ordered(plan) && PlannedFile(RECEIPT, Zstd) in plan
    requires Execution(codec, d, runKey, plan, source).result.Ok?
    ensures Available(plan, source) && !Kept(codec, Execution(codec, d, runKey, plan, source).files, plan, source)
  {
    ReceiptHoldsIff(codec, d, runKey, plan, source);
  }
}
