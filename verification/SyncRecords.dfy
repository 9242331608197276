/**
 What a receipt says of the files it lists, and what a refusal says of the one it
 refuses, in terms of the source and the destination alone.
*/
module SyncRecords {
  import opened Wrappers
  import opened TextOrder
  import opened SyncSteps
  import opened SyncReceipts

  // Receipts

  /** The hash and the size of some bytes. */
  predicate Describes(codec: Codec, d: Digest, bytes: Bytes) {
    d.hash == codec.hash(bytes) && d.bytes == |bytes|
  }

  /** The entry of a file: where it is, in which form, and what was read. */
  predicate TellsTheSource(codec: Codec, e: SyncedFile, f: PlannedFile, source: Files)
    requires f.path in source
  {
    && e.path == f.path && e.compression == f.compression
    && e.storedPath == (match f.compression case Plain => f.path case Zstd => f.path + ".zst")
    && Describes(codec, e.source, source[f.path])
  }

  /** The entry of a file describes what is at the destination. */
  predicate TellsTheStored(codec: Codec, e: SyncedFile, d: Files) {
    e.storedPath in d && Describes(codec, e.stored, d[e.storedPath])
  }

  lemma {:induction false} EntriesTellTheSource(codec: Codec, plan: seq<PlannedFile>, source: Files, i: nat)
    requires Available(plan, source) && i < |plan|
    ensures |Entries(codec, plan, source)| == |plan|
    ensures TellsTheSource(codec, Entries(codec, plan, source)[i], plan[i], source)
    ensures Entries(codec, plan, source)[i] == plan[i].Synced(codec, source[plan[i].path])
    decreases |plan|
  {
    if |plan| > 1 {
      EntriesTellTheSource(codec, plan[1..], source, if i > 0 then i - 1 else 0);
    } else {
      assert Entries(codec, plan[1..], source) == [];
    }
  }

  /** What stays under the stored name of a file that nothing of the plan gets in the way of. */
  lemma {:induction false} LaterFilesLeaveStored(
    codec: Codec, d: Files, f: PlannedFile, later: seq<PlannedFile>, source: Files)
    requires f.path in source && Available(later, source)
    requires f.StoredPath() in d && d[f.StoredPath()] == codec.Store(f.compression, source[f.path])
    requires forall g :: g in later ==> Before(f.path, g.path) && g.path != Zst(f.path)
    ensures var after := After(codec, d, later, source);
            f.StoredPath() in after && after[f.StoredPath()] == codec.Store(f.compression, source[f.path])
    decreases |later|
  {
    if later != [] {
      var g := later[0];
      LaterFilesMeet(f, g);
      LaterFilesLeaveStored(codec, Placed(codec, d, g, source[g.path]), f, later[1..], source);
    }
  }

  lemma PlannedIsStored(codec: Codec, d: Files, plan: seq<PlannedFile>, source: Files, i: nat)
    requires Ordered(plan) && Available(plan, source) && i < |plan| && !Listed(plan, Zst(plan[i].path))
    ensures var f := plan[i]; var after := After(codec, d, plan, source);
            f.StoredPath() in after && after[f.StoredPath()] == codec.Store(f.compression, source[f.path])
  {
    var f := plan[i];
    var before := SplitAt(codec, d, plan, i, source);
    LaterFilesLeaveStored(codec, Placed(codec, before, f, source[f.path]), f, plan[i + 1..], source);
  }

  lemma ReceiptIsOfTheRun(codec: Codec, d: Files, runKey: string, plan: seq<PlannedFile>, source: Files)
    requires Execution(codec, d, runKey, plan, source).result.Ok?
    ensures Available(plan, source)
    ensures var e := Execution(codec, d, runKey, plan, source);
            && e.result.value.receipt.runKey == runKey
            && e.result.value.receipt.files == Entries(codec, plan, source)
            && e.files == After(codec, d, plan, source)[RECEIPT := codec.write(e.result.value.receipt)]
  {
    StepsPlaceEverything(codec, d, ReceiptAt(codec, d).value, plan, source, []);
    assert [] + Entries(codec, plan, source) == Entries(codec, plan, source);
  }

  lemma EntryTellsTheStored(codec: Codec, d: Files, receipt: Bytes, plan: seq<PlannedFile>, source: Files, i: nat)
    requires Ordered(plan) && Available(plan, source) && i < |plan|
    requires plan[i].path != RECEIPT && !Listed(plan, Zst(plan[i].path))
    ensures |Entries(codec, plan, source)| == |plan|
    ensures TellsTheStored(codec, Entries(codec, plan, source)[i], After(codec, d, plan, source)[RECEIPT := receipt])
  {
    EntriesTellTheSource(codec, plan, source, i);
    PlannedIsStored(codec, d, plan, source, i);
    ReceiptNameIsApart(plan[i]);
  }

  /**
   The receipt of a sync that succeeds has the run's key and one entry for each
   planned file in turn, with what was read of it; and with what is stored, unless the
   file is the receipt's namesake or another has its compressed name.
  */
  lemma ReceiptTellsWhatHappened(codec: Codec, d: Files, runKey: string, plan: seq<PlannedFile>, source: Files)
    requires Ordered(plan) && Execution(codec, d, runKey, plan, source).result.Ok?
    ensures Available(plan, source)
    ensures
      var e := Execution(codec, d, runKey, plan, source);
      var receipt := e.result.value.receipt;
      && receipt.runKey == runKey && |receipt.files| == |plan|
      && (forall i :: 0 <= i < |plan| ==> TellsTheSource(codec, receipt.files[i], plan[i], source))
      && (forall i :: 0 <= i < |plan| && plan[i].path != RECEIPT && !Listed(plan, Zst(plan[i].path)) ==>
            TellsTheStored(codec, receipt.files[i], e.files))
  {
    ReceiptIsOfTheRun(codec, d, runKey, plan, source);
    var e := Execution(codec, d, runKey, plan, source);
    var entries := Entries(codec, plan, source);
    assert plan == [] ==> entries == [];
    forall i | 0 <= i < |plan|
      ensures |entries| == |plan| && TellsTheSource(codec, entries[i], plan[i], source)
    {
      EntriesTellTheSource(codec, plan, source, i);
    }
    forall i | 0 <= i < |plan| && plan[i].path != RECEIPT && !Listed(plan, Zst(plan[i].path))
      ensures |entries| == |plan| && TellsTheStored(codec, entries[i], e.files)
    {
      EntryTellsTheStored(codec, d, codec.write(e.result.value.receipt), plan, source, i);
    }
  }

  // Verdicts

  /** What a guarded file's listed form, once decoded, says of a new content. */
  function Verdict(path: string, held: Option<Bytes>, content: Bytes): Option<Error> {
    match held
    case None => Some(Unreadable(path))
    case Some(earlier) =>
      if path == "events.jsonl" || path == "metrics.csv" then
        if |earlier| <= |content| && content[..|earlier|] == earlier then None else Some(Rewritten(path))
      else if earlier == content then None else Some(Contradicts(path))
  }

  /** Four files are guarded, by the form the last receipt lists while it is there; nothing else is ever refused. */
  lemma GuardSaysWhy(codec: Codec, d: Files, previous: Option<Receipt>, path: string, content: Bytes)
    ensures Guard(codec, d, previous, path, content) ==
            if path !in {"events.jsonl", "metrics.csv", "run.json", "config.json"} then None
            else match PreviousForm(previous, path)
              case None => None
              case Some(e) =>
                if e.storedPath !in d then None
                else Verdict(path, if e.compression.Zstd? then codec.decode(d[e.storedPath]) else Some(d[e.storedPath]),
                             content)
  {
  }

  /** A sync gets past a file: the source has it, and its guard, after the files before it, lets it through. */
  ghost predicate Passes(
    codec: Codec, d: Files, previous: Option<Receipt>, plan: seq<PlannedFile>, source: Files, i: nat)
    requires i < |plan|
  {
    && Available(plan[..i], source) && plan[i].path in source
    && Guard(codec, After(codec, d, plan[..i], source), previous, plan[i].path, source[plan[i].path]).None?
  }

  lemma {:induction false} StepsSucceedIff(
    codec: Codec, d: Files, previous: Option<Receipt>, plan: seq<PlannedFile>, source: Files, written: seq<SyncedFile>)
    ensures Steps(codec, d, previous, plan, source, written).result.Ok? <==>
            forall i :: 0 <= i < |plan| ==> Passes(codec, d, previous, plan, source, i)
    decreases |plan|
  {
    if plan != [] {
      var f := plan[0];
      assert plan[..0] == [];
      assert Passes(codec, d, previous, plan, source, 0) <==>
             f.path in source && Guard(codec, d, previous, f.path, source[f.path]).None?;
      if Passes(codec, d, previous, plan, source, 0) {
        var next, y := Placed(codec, d, f, source[f.path]), f.Synced(codec, source[f.path]);
        StepsSucceedIff(codec, next, previous, plan[1..], source, written + [y]);
        forall i | 0 <= i < |plan|
          ensures i > 0 ==> (Passes(codec, d, previous, plan, source, i) <==>
                             Passes(codec, next, previous, plan[1..], source, i - 1))
        {
          if i > 0 { PassesLater(codec, d, previous, plan, source, i - 1); }
        }
        if forall i :: 0 <= i < |plan| ==> Passes(codec, d, previous, plan, source, i) {
          forall k | 0 <= k < |plan[1..]|
            ensures Passes(codec, next, previous, plan[1..], source, k)
          {
            PassesLater(codec, d, previous, plan, source, k);
            var i := k + 1;
            assert Passes(codec, d, previous, plan, source, i);
          }
        }
      }
    }
  }

  lemma PassesLater(
    codec: Codec, d: Files, previous: Option<Receipt>, plan: seq<PlannedFile>, source: Files, i: nat)
    requires i + 1 < |plan| && plan[0].path in source
    ensures Passes(codec, Placed(codec, d, plan[0], source[plan[0].path]), previous, plan[1..], source, i) <==>
            Passes(codec, d, previous, plan, source, i + 1)
  {
    assert plan[..i + 1] == [plan[0]] + plan[1..][..i];
    assert plan[..i + 1][1..] == plan[1..][..i];
    assert forall f :: f in plan[..i + 1] <==> f == plan[0] || f in plan[1..][..i];
  }

  /** A sync succeeds if and only if its receipt can be read, or is not there, and every file in turn gets past. */
  lemma SucceedsIff(codec: Codec, d: Files, runKey: string, plan: seq<PlannedFile>, source: Files)
    ensures Execution(codec, d, runKey, plan, source).result.Ok? <==>
            && (RECEIPT in d ==> codec.read(d[RECEIPT]).Some?)
            && var previous := if RECEIPT in d then codec.read(d[RECEIPT]) else None;
            forall i :: 0 <= i < |plan| ==> Passes(codec, d, previous, plan, source, i)
  {
    if RECEIPT in d ==> codec.read(d[RECEIPT]).Some? {
      StepsSucceedIff(codec, d, ReceiptAt(codec, d).value, plan, source, []);
    }
  }

  /** One that does not says which file, and leaves the destination as it was before that file. */
  lemma {:induction false} FailureSaysWhy(
    codec: Codec, d: Files, previous: Option<Receipt>, plan: seq<PlannedFile>, source: Files, written: seq<SyncedFile>)
    returns (i: nat)
    requires Steps(codec, d, previous, plan, source, written).result.Err?
    ensures i < |plan| && Available(plan[..i], source)
    ensures var s := Steps(codec, d, previous, plan, source, written);
            && s.files == After(codec, d, plan[..i], source)
            && if plan[i].path !in source then s.result.error == Missing(plan[i].path)
               else Guard(codec, s.files, previous, plan[i].path, source[plan[i].path]) == Some(s.result.error)
    decreases |plan|
  {
    var f := plan[0];
    assert plan[..0] == [];
    if f.path !in source || Guard(codec, d, previous, f.path, source[f.path]).Some? {
      i := 0;
    } else {
      var next := Placed(codec, d, f, source[f.path]);
      var k := FailureSaysWhy(codec, next, previous, plan[1..], source, written + [f.Synced(codec, source[f.path])]);
      i := k + 1;
      assert plan[..i] == [f] + plan[1..][..k] && plan[..i][1..] == plan[1..][..k];
      assert forall g :: g in plan[..i] <==> g == f || g in plan[1..][..k];
    }
  }
}
