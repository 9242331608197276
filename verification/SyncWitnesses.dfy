/**
 Histories in which the guard of a sync is got round: one for each way in which
 the conditions of `SyncBindings` and `SyncChains` fail.
*/
module SyncWitnesses {
  import opened TextOrder
  import opened SyncSteps
  import opened SyncReceipts
  import opened SyncHistory
  import opened SyncBindings
  import opened SyncChains

  /** The destination lists and holds an uncompressed event log. */
  predicate HoldsLog(codec: Codec, d: Files, x: Bytes) {
    && ReceiptAt(codec, d).Ok?
    && ReceiptAt(codec, d).value.Some?
    && ReceiptAt(codec, d).value.value.files == [PlannedFile("events.jsonl", Plain).Synced(codec, x)]
    && "events.jsonl" in d && d["events.jsonl"] == x
  }

  lemma SameLogPasses(codec: Codec, d: Files, x: Bytes)
    requires HoldsLog(codec, d, x)
    ensures Guard(codec, d, ReceiptAt(codec, d).value, "events.jsonl", x).None?
  {
  }

  const LOG := "events.jsonl"

  lemma MovedLogIsUnguarded(codec: Codec, d: Files, x: Bytes, y: Bytes)
    requires HoldsLog(codec, d, x)
    ensures var e := Placed(codec, d, PlannedFile(LOG, Zstd), x);
            ReceiptAt(codec, e) == ReceiptAt(codec, d) && Guard(codec, e, ReceiptAt(codec, e).value, LOG, y).None?
  {
    ReceiptNameIsApart(PlannedFile(LOG, Zstd));
  }

  lemma PlacedBackIsGuarded(codec: Codec, d: Files, x: Bytes, y: Bytes, z: Bytes)
    requires HoldsLog(codec, d, x)
    ensures var e := Placed(codec, Placed(codec, d, PlannedFile(LOG, Zstd), x), PlannedFile(LOG, Plain), y);
            ReceiptAt(codec, e) == ReceiptAt(codec, d) &&
                (Guard(codec, e, ReceiptAt(codec, e).value, LOG, z).None? <==> y <= z)
  {
    ReceiptNameIsApart(PlannedFile(LOG, Zstd));
    ReceiptNameIsApart(PlannedFile(LOG, Plain));
  }

  lemma FirstThen(codec: Codec, d: Files, runKey: string, a: Attempt, rest: seq<Attempt>)
    requires Possible(codec, d, runKey, a) && Runs(codec, Post(codec, d, runKey, a), runKey, rest)
    ensures Runs(codec, d, runKey, [a] + rest)
  {
    assert ([a] + rest)[1..] == rest;
  }

  lemma FirstThenTo(codec: Codec, d: Files, runKey: string, a: Attempt, rest: seq<Attempt>, final: Files)
    requires Possible(codec, d, runKey, a) && RunsTo(codec, Post(codec, d, runKey, a), runKey, rest, final)
    ensures RunsTo(codec, d, runKey, [a] + rest, final)
  {
    assert ([a] + rest)[1..] == rest;
  }

  lemma {:induction false} RunsOneMore(
    codec: Codec, d: Files, runKey: string, h: seq<Attempt>, final: Files, a: Attempt)
    requires RunsTo(codec, d, runKey, h, final) && Possible(codec, final, runKey, a)
    ensures Runs(codec, d, runKey, h + [a])
    decreases |h|
  {
    if h == [] {
      FirstThen(codec, d, runKey, a, []);
    } else {
      RunsOneMore(codec, Post(codec, d, runKey, h[0]), runKey, h[1..], final, a);
      FirstThen(codec, d, runKey, h[0], h[1..] + [a]);
      assert h + [a] == [h[0]] + (h[1..] + [a]);
    }
  }

  /** A sync of the event log alone, completed, or killed once the log has been placed. */
  function Sync(c: Compression, x: Bytes): Attempt {
    Completed([PlannedFile(LOG, c)], map[LOG := x])
  }

  function Cut(c: Compression, x: Bytes): Attempt {
    Stopped([PlannedFile(LOG, c)], map[LOG := x], 1, Clean)
  }

  lemma SyncsOfTheLog(a: Attempt, c: Compression, x: Bytes, rest: seq<Attempt>)
    requires (a == Sync(c, x) || a == Cut(c, x)) && KeepsSending(rest, LOG)
    ensures KeepsSending([a] + rest, LOG)
    ensures Sent([a] + rest, LOG) == (if a.Completed? then [x] else []) + Sent(rest, LOG)
  {
    assert ([a] + rest)[1..] == rest && a.plan[0] == PlannedFile(LOG, c);
  }

  /**
   A sync killed after it moved the event log to its other form, and before its
   receipt, disarms the guard: the next sync may send anything at all.
  */
  lemma DisarmedGuardAcceptsAnything(codec: Codec, runKey: string, x: Bytes, y: Bytes) returns (h: seq<Attempt>)
    requires codec.Faithful()
    ensures Runs(codec, map[], runKey, h) && KeepsSending(h, LOG) && Sent(h, LOG) == [x, y]
  {
    var first, cut, last := Sync(Plain, x), Cut(Zstd, x), Sync(Plain, y);
    h := [first] + ([cut] + ([last] + []));
    var d: Files := map[];
    OneFileCompletes(codec, d, runKey, PlannedFile(LOG, Plain), x);
    var d1 := Post(codec, d, runKey, first);
    SameLogPasses(codec, d1, x);
    OneFileMoves(codec, d1, runKey, PlannedFile(LOG, Zstd), x);
    MovedLogIsUnguarded(codec, d1, x, y);
    var d2 := Post(codec, d1, runKey, cut);
    OneFileCompletes(codec, d2, runKey, PlannedFile(LOG, Plain), y);
    FirstThen(codec, d2, runKey, last, []);
    FirstThen(codec, d1, runKey, cut, [last] + []);
    FirstThen(codec, d, runKey, first, [cut] + ([last] + []));
    SyncsOfTheLog(last, Plain, y, []);
    SyncsOfTheLog(cut, Zstd, x, [last] + []);
    SyncsOfTheLog(first, Plain, x, [cut] + ([last] + []));
  }

  lemma AwayAndBack(codec: Codec, d1: Files, runKey: string, x: Bytes, y: Bytes) returns (d2: Files)
    requires codec.Faithful() && HoldsLog(codec, d1, x)
    ensures Possible(codec, d1, runKey, Cut(Zstd, x)) && d2 == Post(codec, d1, runKey, Cut(Zstd, x))
    ensures Possible(codec, d2, runKey, Cut(Plain, y))
    ensures var d := Post(codec, d2, runKey, Cut(Plain, y));
            && ReceiptAt(codec, d).Ok?
            && Guard(codec, d, ReceiptAt(codec, d).value, LOG, y).None?
            && (y != [] ==> Guard(codec, d, ReceiptAt(codec, d).value, LOG, []).Some?)
  {
    SameLogPasses(codec, d1, x);
    OneFileMoves(codec, d1, runKey, PlannedFile(LOG, Zstd), x);
    MovedLogIsUnguarded(codec, d1, x, y);
    d2 := Post(codec, d1, runKey, Cut(Zstd, x));
    OneFileMoves(codec, d2, runKey, PlannedFile(LOG, Plain), y);
    PlacedBackIsGuarded(codec, d1, x, y, y);
    PlacedBackIsGuarded(codec, d1, x, y, []);
  }

  /**
   A second killed sync may put other bytes back under the listed name. The
   guard then refuses again, but guards those bytes: the next sync may send them.
  */
  lemma GuardOfOtherBytes(
    codec: Codec, runKey: string, x: Bytes, y: Bytes) returns (h: seq<Attempt>, last: Attempt, d: Files)
    requires codec.Faithful() && y != []
    ensures Runs(codec, map[], runKey, h + [last]) && KeepsSending(h + [last], LOG) && Sent(h + [last], LOG) == [x, y]
    ensures RunsTo(codec, map[], runKey, h, d) && ReceiptAt(codec, d).Ok?
    ensures Guard(codec, d, ReceiptAt(codec, d).value, LOG, []).Some?
  {
    var first, cut, back := Sync(Plain, x), Cut(Zstd, x), Cut(Plain, y);
    last := Sync(Plain, y);
    h := [first] + ([cut] + ([back] + []));
    var d0: Files := map[];
    OneFileCompletes(codec, d0, runKey, PlannedFile(LOG, Plain), x);
    var d1 := Post(codec, d0, runKey, first);
    var d2 := AwayAndBack(codec, d1, runKey, x, y);
    d := Post(codec, d2, runKey, back);
    OneFileCompletes(codec, d, runKey, PlannedFile(LOG, Plain), y);
    FirstThenTo(codec, d2, runKey, back, [], d);
    FirstThenTo(codec, d1, runKey, cut, [back] + [], d);
    FirstThenTo(codec, d0, runKey, first, [cut] + ([back] + []), d);
    RunsOneMore(codec, d0, runKey, h, d, last);
    FourSyncs(x, y);
    assert h + [last] == [first] + ([cut] + ([back] + ([last] + [])));
  }

  lemma FourSyncs(x: Bytes, y: Bytes)
    ensures var h := [Sync(Plain, x)] + ([Cut(Zstd, x)] + ([Cut(Plain, y)] + ([Sync(Plain, y)] + [])));
            KeepsSending(h, LOG) && Sent(h, LOG) == [x, y]
  {
    SyncsOfTheLog(Sync(Plain, y), Plain, y, []);
    SyncsOfTheLog(Cut(Plain, y), Plain, y, [Sync(Plain, y)] + []);
    SyncsOfTheLog(Cut(Zstd, x), Zstd, x, [Cut(Plain, y)] + ([Sync(Plain, y)] + []));
    SyncsOfTheLog(Sync(Plain, x), Plain, x, [Cut(Zstd, x)] + ([Cut(Plain, y)] + ([Sync(Plain, y)] + [])));
  }

  /** The event log, and a file with its compressed name, both sent compressed. */
  function Overriding(x: Bytes, z: Bytes): Attempt {
    Completed([PlannedFile(LOG, Zstd), PlannedFile(Zst(LOG), Zstd)], map[LOG := x, Zst(LOG) := z])
  }

  lemma OverridingPlan(x: Bytes, z: Bytes)
    ensures var a := Overriding(x, z);
      && Ordered(a.plan) && Available(a.plan, a.source) && Content(a.source, LOG) == x
      && Sends(a, LOG) && Removes(a.plan, LOG)
  {
    var a := Overriding(x, z);
    ExtensionComesLater(LOG, ".zst");
    assert a.plan[0] == PlannedFile(LOG, Zstd) && a.plan[1] == PlannedFile(Zst(LOG), Zstd);
  }

  /** The plan stores the file compressed, and removes that form as the superseded one of another file. */
  predicate Removes(plan: seq<PlannedFile>, path: string) {
    PlannedFile(path, Zstd) in plan && Listed(plan, Zst(path)) && PlannedFile(Zst(path), Plain) !in plan
  }

  lemma RemovedIsUnguarded(codec: Codec, d: Files, runKey: string, a: Attempt, path: string, y: Bytes)
    requires codec.Faithful() && Guarded(path) && Sends(a, path) && Possible(codec, d, runKey, a) &&
        Removes(a.plan, path)
    ensures var e := Post(codec, d, runKey, a);
            ReceiptAt(codec, e).Ok? && Guard(codec, e, ReceiptAt(codec, e).value, path, y).None?
  {
    CompletedTracks(codec, d, runKey, a, path, UNKNOWN);
    CompletedLeaves(codec, a, path, UNKNOWN);
    PlannedOnce(a.plan, path);
    var e := Post(codec, d, runKey, a);
    GuardPassesIff(codec, e, ReceiptAt(codec, e).value, path, y);
  }

  /**
   Two syncs that succeed: the first sends the event log and a file with its
   compressed name, both compressed; the second then sends any other log.
  */
  lemma OverriddenGuardAcceptsAnything(codec: Codec, runKey: string, x: Bytes, z: Bytes, y: Bytes)
    requires codec.Faithful()
    ensures var h := [Overriding(x, z)] + ([Sync(Zstd, y)] + []);
            Runs(codec, map[], runKey, h) && Sent(h, LOG) == [x, y]
  {
    var first, last := Overriding(x, z), Sync(Zstd, y);
    OverridingPlan(x, z);
    FirstSyncSucceeds(codec, map[], runKey, first.plan, first.source);
    RemovedIsUnguarded(codec, map[], runKey, first, LOG, y);
    var d := Post(codec, map[], runKey, first);
    OneFileCompletes(codec, d, runKey, PlannedFile(LOG, Zstd), y);
    FirstThen(codec, d, runKey, last, []);
    FirstThen(codec, map[], runKey, first, [last] + []);
    SyncsOfTheLog(last, Zstd, y, []);
    SentThen(first, [last] + [], LOG);
  }

  lemma SentThen(a: Attempt, rest: seq<Attempt>, path: string)
    ensures Sent([a] + rest, path) == (if Sends(a, path) then [Content(a.source, path)] else []) + Sent(rest, path)
  {
    assert ([a] + rest)[1..] == rest;
  }

  /** A sync that leaves the log out lets go of it: the next one sends any other log. */
  lemma OmittedLogIsForgotten(codec: Codec, runKey: string, x: Bytes, y: Bytes)
    requires codec.Faithful()
    ensures var h := [Sync(Plain, x)] + ([Completed([], map[])] + ([Sync(Plain, y)] + []));
            Runs(codec, map[], runKey, h) && Sent(h, LOG) == [x, y]
  {
    var first, empty, last := Sync(Plain, x), Completed([], map[]), Sync(Plain, y);
    OneFileCompletes(codec, map[], runKey, PlannedFile(LOG, Plain), x);
    var d := Post(codec, map[], runKey, first);
    assert Possible(codec, d, runKey, empty);
    UnsentIsUnlisted(codec, d, runKey, empty, LOG);
    var e := Post(codec, d, runKey, empty);
    OneFileCompletes(codec, e, runKey, PlannedFile(LOG, Plain), y);
    FirstThen(codec, e, runKey, last, []);
    FirstThen(codec, d, runKey, empty, [last] + []);
    FirstThen(codec, map[], runKey, first, [empty] + ([last] + []));
    SyncsOfTheLog(last, Plain, y, []);
    SentThen(empty, [last] + [], LOG);
    SentThen(first, [empty] + ([last] + []), LOG);
    assert first.plan[0].path == LOG;
  }
}
