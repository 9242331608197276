/**
 What a sync removes, and what it reports as left behind. A file that an earlier
 sync placed and the new plan does not store stays, with one exception that is
 stated exactly: a name the plan uses as a temporary name, or as the superseded
 form of a file it sends.
*/
module SyncLeftBehind {
  import opened Wrappers
  import opened TextOrder
  import opened SyncSteps
  import opened SyncReceipts

  /** The plan stores some file under this name. */
  predicate StoresUnder(plan: seq<PlannedFile>, path: string) {
    exists f :: f in plan && f.StoredPath() == path
  }

  /** The plan uses this name for a temporary file, or removes it as a superseded form. */
  predicate Displaces(plan: seq<PlannedFile>, path: string) {
    exists f :: f in plan && (f.PartPath() == path || f.OtherPath() == path)
  }

  /** A name the plan does not store under is kept with its bytes, unless the plan displaces it. */
  lemma {:induction false} RestOfTheDestination(
    codec: Codec, d: Files, plan: seq<PlannedFile>, source: Files, path: string)
    requires Available(plan, source) && !StoresUnder(plan, path)
    ensures path in After(codec, d, plan, source) <==> path in d && !Displaces(plan, path)
    ensures path in After(codec, d, plan, source) ==> After(codec, d, plan, source)[path] == d[path]
    decreases |plan|
  {
    if plan != [] {
      var f := plan[0];
      assert plan == [f] + plan[1..] && f in plan;
      RestOfTheDestination(codec, Placed(codec, d, f, source[f.path]), plan[1..], source, path);
    }
  }

  lemma {:induction false} EntriesStore(codec: Codec, plan: seq<PlannedFile>, source: Files, path: string)
    requires Available(plan, source)
    ensures Stores(Entries(codec, plan, source), path) <==> StoresUnder(plan, path)
    decreases |plan|
  {
    if plan != [] {
      var f := plan[0];
      EntriesStore(codec, plan[1..], source, path);
      assert plan == [f] + plan[1..];
      assert Entries(codec, plan, source) == [f.Synced(codec, source[f.path])] + Entries(codec, plan[1..], source);
      assert f.Synced(codec, source[f.path]) in Entries(codec, plan, source);
    }
  }

  lemma {:induction false} LeftBehindIsStillThere(
    d: Files, previous: seq<SyncedFile>, written: seq<SyncedFile>, path: string)
    ensures path in LeftBehind(d, previous, written) <==> Stores(previous, path) && !Stores(written, path) && path in d
  {
    if previous != [] {
      LeftBehindIsStillThere(d, previous[1..], written, path);
      assert previous == [previous[0]] + previous[1..];
    }
  }

  /** What the report names: placed earlier, there before, not stored now, and not displaced. */
  lemma LeftBehindExactly(
    codec: Codec, d: Files, runKey: string, plan: seq<PlannedFile>, source: Files, earlier: Receipt, path: string)
    requires ReceiptAt(codec, d) == Ok(Some(earlier)) && Execution(codec, d, runKey, plan, source).result.Ok?
    ensures path in Execution(codec, d, runKey, plan, source).result.value.leftBehind <==>
            Stores(earlier.files, path) && path in d && !StoresUnder(plan, path) && !Displaces(plan, path)
  {
    StepsPlaceEverything(codec, d, Some(earlier), plan, source, []);
    var entries := Entries(codec, plan, source);
    assert [] + entries == entries;
    LeftBehindIsStillThere(After(codec, d, plan, source), earlier.files, entries, path);
    EntriesStore(codec, plan, source, path);
    if !StoresUnder(plan, path) { RestOfTheDestination(codec, d, plan, source, path); }
  }

  /** What the report names keeps its bytes. */
  lemma LeftBehindKeepsItsBytes(
    codec: Codec, d: Files, runKey: string, plan: seq<PlannedFile>, source: Files, path: string)
    requires Execution(codec, d, runKey, plan, source).result.Ok? && path != RECEIPT
    requires path in Execution(codec, d, runKey, plan, source).result.value.leftBehind
    ensures path in d && path in Execution(codec, d, runKey, plan, source).files
    ensures Execution(codec, d, runKey, plan, source).files[path] == d[path]
  {
    var previous := ReceiptAt(codec, d).value;
    StepsPlaceEverything(codec, d, previous, plan, source, []);
    var entries := Entries(codec, plan, source);
    assert [] + entries == entries;
    var earlier := if previous.None? then [] else previous.value.files;
    LeftBehindIsStillThere(After(codec, d, plan, source), earlier, entries, path);
    EntriesStore(codec, plan, source, path);
    RestOfTheDestination(codec, d, plan, source, path);
  }

  /**
   One sync sends a file that is called "a.zst", the next sends "a" instead. The
   second completes and deletes the file of the first, and does not report it.
  */
  lemma DisplacedIsUnreported(codec: Codec, runKey: string, x: Bytes, y: Bytes)
    requires codec.Faithful()
    ensures
      var first := Execution(codec, map[], runKey, [PlannedFile(Zst("a"), Plain)], map[Zst("a") := x]);
      && first.result.Ok? && Stores(first.result.value.receipt.files, Zst("a")) && Zst("a") in first.files
      && ReceiptAt(codec, first.files) == Ok(Some(first.result.value.receipt))
      && var next := Execution(codec, first.files, runKey, [PlannedFile("a", Plain)], map["a" := y]);
      next.result.Ok? && Zst("a") !in next.files && Zst("a") !in next.result.value.leftBehind
  {
    var f, g := PlannedFile(Zst("a"), Plain), PlannedFile("a", Plain);
    OneUnguarded(codec, map[], runKey, f, x);
    var first := Execution(codec, map[], runKey, [f], map[f.path := x]);
    assert f.Synced(codec, x) in first.result.value.receipt.files;
    ReceiptHoldsIff(codec, map[], runKey, [f], map[f.path := x]);
    OneUnguarded(codec, first.files, runKey, g, y);
    LeftBehindExactly(codec, first.files, runKey, [g], map[g.path := y], first.result.value.receipt, Zst("a"));
    assert g in [g] && g.OtherPath() == Zst("a");
  }

  /** A sync of one file that no earlier receipt guards. */
  lemma OneUnguarded(codec: Codec, d: Files, runKey: string, f: PlannedFile, x: Bytes)
    requires ReceiptAt(codec, d).Ok? && !AppendOnly(f.path) && !Immutable(f.path)
    ensures
      var e := Execution(codec, d, runKey, [f], map[f.path := x]);
      && e.result.Ok? && e.result.value.receipt.files == [f.Synced(codec, x)]
      && e.files == Placed(codec, d, f, x)[RECEIPT := codec.write(e.result.value.receipt)]
  {
    var plan, source := [f], map[f.path := x];
    var previous := ReceiptAt(codec, d).value;
    assert plan[0] == f && plan[1..] == [] && source[f.path] == x;
    assert [] + [f.Synced(codec, x)] == [f.Synced(codec, x)];
    var d1 := Placed(codec, d, f, x);
    assert Steps(codec, d1, previous, [], source, [f.Synced(codec, x)]) == Progress(d1, Ok([f.Synced(codec, x)]));
  }
}
