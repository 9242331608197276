/**
 What successive syncs can send of a guarded file. After successful syncs, and
 over every history that leaves the file where it is, the contents of a log are
 a chain of prefixes and an identifying file never changes.
*/
module SyncChains {
  import opened Wrappers
  import opened TextOrder
  import opened SyncSteps
  import opened SyncReceipts
  import opened SyncHistory
  import opened SyncBindings

  // What the next sync may send

  /** The guard of the file runs on what the form holds, wherever in the plan the file is. */
  lemma {:induction false} GuardRuns(
    codec: Codec, d: Files, previous: Option<Receipt>, plan: seq<PlannedFile>, source: Files, written: seq<SyncedFile>,
    path: string, form: Compression)
    requires Guarded(path) && Ordered(plan) && Listed(plan, path)
    requires FormOf(path, form) in d && Armed(previous, path, form)
    requires Steps(codec, d, previous, plan, source, written).result.Ok?
    ensures var held := codec.Load(form, d[FormOf(path, form)]);
            held.Some? && Continues(path, held.value, Content(source, path))
    decreases |plan|
  {
    var g := plan[0];
    if g.path == path {
      GuardPassesIff(codec, d, previous, path, source[path]);
    } else {
      assert Before(g.path, path);
      EarlierLeaveGuarded(g, path);
      GuardRuns(codec, Placed(codec, d, g, source[g.path]), previous, plan[1..], source,
                written + [g.Synced(codec, source[g.path])], path, form);
    }
  }

  ghost predicate CanFollow(codec: Codec, d: Files, runKey: string, a: Attempt, path: string) {
    Sends(a, path) && Possible(codec, d, runKey, a)
  }

  lemma SafeContinues(codec: Codec, d: Files, runKey: string, path: string, l: Ledger, a: Attempt)
    requires Guarded(path) && Tracks(codec, d, path, l) && Safe(codec, path, l)
    requires CanFollow(codec, d, runKey, a, path)
    ensures Continues(path, l.sent, Content(a.source, path))
  {
    if l.held.Some? {
      GuardRuns(codec, d, ReceiptAt(codec, d).value, a.plan, a.source, [], path, l.form);
    }
  }

  /** If the ledger is not safe, some completed sync can follow that breaks with what was sent. */
  lemma SomethingFollows(codec: Codec, d: Files, runKey: string, path: string, l: Ledger) returns (a: Attempt)
    requires codec.Faithful() && Guarded(path) && Tracks(codec, d, path, l) && !Safe(codec, path, l)
    ensures CanFollow(codec, d, runKey, a, path)
    ensures !Continues(path, l.sent, Content(a.source, path))
  {
    var y;
    if l.held.Some? {
      y := codec.Load(l.form, l.held.value).value;
    } else {
      y := SomethingElse(path, l.sent);
    }
    var f := PlannedFile(path, Plain);
    GuardPassesIff(codec, d, ReceiptAt(codec, d).value, path, y);
    GuardedNames(path);
    OneFileCompletes(codec, d, runKey, f, y);
    a := Completed([f], map[path := y]);
    assert a.plan[0] == f;
  }

  /** Every sync that can complete next continues what was last sent, if and only if the ledger is safe. */
  lemma NextContinuesIff(codec: Codec, d: Files, runKey: string, path: string, l: Ledger)
    requires codec.Faithful() && Guarded(path) && Tracks(codec, d, path, l)
    ensures (forall a :: CanFollow(codec, d, runKey, a, path) ==> Continues(path, l.sent, Content(a.source, path))) <==>
            Safe(codec, path, l)
  {
    if Safe(codec, path, l) {
      forall a | CanFollow(codec, d, runKey, a, path)
        ensures Continues(path, l.sent, Content(a.source, path))
      {
        SafeContinues(codec, d, runKey, path, l, a);
      }
    } else {
      var b := SomethingFollows(codec, d, runKey, path, l);
    }
  }

  /** After a completed sync, the next one has to continue what it sent, unless the plan overrides that. */
  lemma NextAfterCompletedIff(codec: Codec, d: Files, runKey: string, a: Attempt, path: string)
    requires codec.Faithful() && Guarded(path) && Sends(a, path) && Possible(codec, d, runKey, a)
    ensures var x := Content(a.source, path);
            (forall b :: CanFollow(codec, Post(codec, d, runKey, a), runKey, b, path) ==>
                         Continues(path, x, Content(b.source, path))) <==>
            (AppendOnly(path) && x == []) || !Overrides(codec, a, path)
  {
    CompletedTracks(codec, d, runKey, a, path, UNKNOWN);
    CompletedBindsIff(codec, d, runKey, a, path, UNKNOWN);
    NoteSent(codec, UNKNOWN, a, path);
    NextContinuesIff(codec, Post(codec, d, runKey, a), runKey, path, Note(codec, UNKNOWN, a, path));
  }

  lemma {:induction false} UnsentHasNoEntry(codec: Codec, plan: seq<PlannedFile>, source: Files, path: string)
    requires Available(plan, source) && !Listed(plan, path)
    ensures Entry(Entries(codec, plan, source), path) == None
    decreases |plan|
  {
    if plan != [] {
      assert plan[0] in plan && forall g :: g in plan[1..] ==> g in plan;
      UnsentHasNoEntry(codec, plan[1..], source, path);
    }
  }

  lemma UnsentIsUnlisted(codec: Codec, d: Files, runKey: string, a: Attempt, path: string)
    requires codec.Faithful() && a.Completed? && !Listed(a.plan, path) && Possible(codec, d, runKey, a)
    ensures ReceiptAt(codec, Post(codec, d, runKey, a)).Ok?
    ensures PreviousForm(ReceiptAt(codec, Post(codec, d, runKey, a)).value, path).None?
  {
    ReceiptHoldsIff(codec, d, runKey, a.plan, a.source);
    UnsentHasNoEntry(codec, a.plan, a.source, path);
  }

  /** A completed sync that does not send the file lets go of it: the next one need not continue anything. */
  lemma NextAfterOmissionIff(codec: Codec, d: Files, runKey: string, a: Attempt, path: string, x: Bytes)
    requires codec.Faithful() && Guarded(path) && a.Completed? && !Listed(a.plan, path) && Possible(codec, d, runKey, a)
    ensures (forall b :: CanFollow(codec, Post(codec, d, runKey, a), runKey, b, path) ==>
                         Continues(path, x, Content(b.source, path))) <==>
            AppendOnly(path) && x == []
  {
    UnsentIsUnlisted(codec, d, runKey, a, path);
    var e := Post(codec, d, runKey, a);
    if !(AppendOnly(path) && x == []) {
      var y := SomethingElse(path, x);
      GuardedNames(path);
      OneFileCompletes(codec, e, runKey, PlannedFile(path, Plain), y);
      var b := Completed([PlannedFile(path, Plain)], map[path := y]);
      assert b.plan[0].path == path;
      assert CanFollow(codec, e, runKey, b, path);
    }
  }

  // Chains

  /** The contents completed syncs sent of a file, in order. */
  function Sent(h: seq<Attempt>, path: string): seq<Bytes> {
    if h == [] then []
    else if Sends(h[0], path) then [Content(h[0].source, path)] + Sent(h[1..], path)
    else Sent(h[1..], path)
  }

  ghost predicate AllContinue(path: string, x: Bytes, sent: seq<Bytes>) {
    forall y :: y in sent ==> Continues(path, x, y)
  }

  /** Each content is continued by every later one. */
  ghost predicate Chain(path: string, sent: seq<Bytes>) {
    sent == [] || (AllContinue(path, sent[0], sent[1..]) && Chain(path, sent[1..]))
  }

  /** A chain goes on with whatever continues its last content. */
  lemma {:induction false} ChainGoesOn(path: string, sent: seq<Bytes>, y: Bytes)
    requires sent != []
    ensures Chain(path, sent + [y]) <==> Chain(path, sent) && Continues(path, sent[|sent| - 1], y)
  {
    var x, rest := sent[0], sent[1..];
    assert (sent + [y])[0] == x && (sent + [y])[1..] == rest + [y];
    if rest == [] {
      assert sent == [x] && rest + [y] == [y] && [y][1..] == [];
      assert AllContinue(path, x, [y]) <==> Continues(path, x, y);
      assert Chain(path, [y]) && Chain(path, rest);
    } else {
      ChainGoesOn(path, rest, y);
      assert rest[|rest| - 1] in rest && rest[|rest| - 1] == sent[|sent| - 1];
      assert AllContinue(path, x, rest + [y]) <==> AllContinue(path, x, rest) && Continues(path, x, y) by {
        assert forall z :: z in rest + [y] <==> z in rest || z == y;
      }
    }
  }

  lemma NoteSent(codec: Codec, l: Ledger, a: Attempt, path: string)
    requires a.Completed? ==> Sends(a, path)
    ensures Note(codec, l, a, path).sent == if Sends(a, path) then Content(a.source, path) else l.sent
  {
    PlannedIsListed(a.plan, path);
  }

  /** The ledger keeps what was last sent. */
  lemma {:induction false} LastSent(codec: Codec, l: Ledger, h: seq<Attempt>, path: string)
    requires KeepsSending(h, path)
    ensures LedgerFrom(codec, l, h, path).sent == if Sent(h, path) == [] then l.sent
        else Sent(h, path)[|Sent(h, path)| - 1]
    decreases |h|
  {
    if h != [] {
      NoteSent(codec, l, h[0], path);
      LastSent(codec, Note(codec, l, h[0], path), h[1..], path);
    }
  }

  /** Between completed syncs, nothing has broken the guard. */
  predicate SafeAtEachSync(codec: Codec, h: seq<Attempt>, path: string, l: Ledger)
    decreases |h|
  {
    h == [] || ((h[0].Completed? ==> Safe(codec, path, l)) &&
        SafeAtEachSync(codec, h[1..], path, Note(codec, l, h[0], path)))
  }

  lemma SentFirst(h: seq<Attempt>, path: string, sofar: seq<Bytes>)
    requires h != [] && Sends(h[0], path)
    ensures sofar + [Content(h[0].source, path)] + Sent(h[1..], path) == sofar + Sent(h, path)
  {
  }

  lemma CompletedGoesOn(
    codec: Codec, d: Files, runKey: string, a: Attempt, path: string, l: Ledger, sofar: seq<Bytes>)
    requires codec.Faithful() && Guarded(path) && CanFollow(codec, d, runKey, a, path)
    requires Tracks(codec, d, path, l) && Safe(codec, path, l)
    requires sofar != [] && l.sent == sofar[|sofar| - 1] && Chain(path, sofar)
    ensures Chain(path, sofar + [Content(a.source, path)]) && Note(codec, l, a, path).sent == Content(a.source, path)
    ensures Tracks(codec, Post(codec, d, runKey, a), path, Note(codec, l, a, path))
  {
    SafeContinues(codec, d, runKey, path, l, a);
    ChainGoesOn(path, sofar, Content(a.source, path));
    CompletedTracks(codec, d, runKey, a, path, l);
    PlannedIsListed(a.plan, path);
  }

  lemma {:induction false} SafeContentsChain(
    codec: Codec, d: Files, runKey: string, h: seq<Attempt>, path: string, l: Ledger, sofar: seq<Bytes>)
    requires codec.Faithful() && Guarded(path) && Runs(codec, d, runKey, h) && KeepsSending(h, path)
    requires Tracks(codec, d, path, l) && SafeAtEachSync(codec, h, path, l)
    requires sofar != [] && l.sent == sofar[|sofar| - 1] && Chain(path, sofar)
    ensures Chain(path, sofar + Sent(h, path))
    decreases |h|
  {
    if h == [] {
      assert sofar + Sent(h, path) == sofar;
    } else {
      var a, x := h[0], Content(h[0].source, path);
      if a.Completed? {
        CompletedGoesOn(codec, d, runKey, a, path, l, sofar);
        SafeContentsChain(codec, Post(codec, d, runKey, a), runKey, h[1..], path, Note(codec, l, a, path), sofar + [x]);
        assert sofar + [x] + Sent(h[1..], path) == sofar + Sent(h, path) by { SentFirst(h, path, sofar); }
      } else {
        StoppedTracks(codec, d, runKey, a, path, l);
        SafeContentsChain(codec, Post(codec, d, runKey, a), runKey, h[1..], path, Note(codec, l, a, path), sofar);
      }
    }
  }

  const UNKNOWN: Ledger := Ledger([], Plain, None)

  /** What completed syncs send is a chain as long as the ledger is safe at each of them. */
  lemma SafeHistoryChains(codec: Codec, d: Files, runKey: string, h: seq<Attempt>, path: string)
    requires codec.Faithful() && Guarded(path) && Runs(codec, d, runKey, h) && KeepsSending(h, path)
    requires h != [] && h[0].Completed? && SafeAtEachSync(codec, h[1..], path, Note(codec, UNKNOWN, h[0], path))
    ensures Chain(path, Sent(h, path))
  {
    var a, x := h[0], Content(h[0].source, path);
    CompletedTracks(codec, d, runKey, a, path, UNKNOWN);
    PlannedIsListed(a.plan, path);
    var one: seq<Bytes> := [x];
    assert Chain(path, one) by { assert one[1..] == []; }
    SafeContentsChain(codec, Post(codec, d, runKey, a), runKey, h[1..], path, Note(codec, UNKNOWN, a, path), [x]);
  }

  /**
   No completed sync overrides the guarded file, and no stopped one has moved it
   or its bytes; `form` and `x` are those of the last completed sync.
  */
  predicate Undisturbed(codec: Codec, h: seq<Attempt>, path: string, form: Compression, x: Bytes)
    decreases |h|
  {
    h == [] ||
    match h[0]
    case Completed(plan, source) =>
      !Overrides(codec, h[0], path) && Planned(plan, path).Some? &&
      Undisturbed(codec, h[1..], path, Planned(plan, path).value.compression, Content(source, path))
    case Stopped(plan, _, done, _) =>
      done <= |plan| && StoppedKeeps(codec, h[0], path, form, x) && Undisturbed(codec, h[1..], path, form, x)
  }

  /** From a binding guard on, an undisturbed history leaves a safe ledger at each sync. */
  lemma {:induction false} UndisturbedIsSafe(
    codec: Codec, d: Files, runKey: string, h: seq<Attempt>, path: string, l: Ledger)
    requires codec.Faithful() && Guarded(path) && Runs(codec, d, runKey, h) && KeepsSending(h, path)
    requires Tracks(codec, d, path, l) && Binds(codec, path, l.form, l.held, l.sent)
    requires Undisturbed(codec, h, path, l.form, l.sent)
    ensures SafeAtEachSync(codec, h, path, l)
    decreases |h|
  {
    if h != [] {
      if h[0].Completed? {
        CompletedTracks(codec, d, runKey, h[0], path, l);
        CompletedBindsIff(codec, d, runKey, h[0], path, l);
      } else {
        StoppedTracks(codec, d, runKey, h[0], path, l);
        StoppedBindsIff(codec, d, runKey, h[0], path, l);
      }
      UndisturbedIsSafe(codec, Post(codec, d, runKey, h[0]), runKey, h[1..], path, Note(codec, l, h[0], path));
    }
  }

  /**
   From any destination, starting with a completed sync: over an undisturbed
   history, what completed syncs sent of an append-only file is a chain of
   prefixes, and what they sent of an identifying file never changes.
  */
  lemma GuardedContentsChain(codec: Codec, d: Files, runKey: string, h: seq<Attempt>, path: string)
    requires codec.Faithful() && Guarded(path) && Runs(codec, d, runKey, h) && KeepsSending(h, path)
    requires h != [] && h[0].Completed? && Undisturbed(codec, h, path, Plain, [])
    ensures Chain(path, Sent(h, path))
  {
    CompletedTracks(codec, d, runKey, h[0], path, UNKNOWN);
    CompletedBindsIff(codec, d, runKey, h[0], path, UNKNOWN);
    UndisturbedIsSafe(codec, Post(codec, d, runKey, h[0]), runKey, h[1..], path, Note(codec, UNKNOWN, h[0], path));
    SafeHistoryChains(codec, d, runKey, h, path);
  }

  // Conditions on the plans alone

  /** No plan sends a file with the compressed name of the guarded file, and no stopped sync has moved it. */
  predicate NeverMoved(h: seq<Attempt>, path: string, form: Compression)
    decreases |h|
  {
    h == [] ||
    match h[0]
    case Completed(plan, _) =>
      !Listed(plan, Zst(path)) && Planned(plan, path).Some? &&
      NeverMoved(h[1..], path, Planned(plan, path).value.compression)
    case Stopped(plan, _, done, _) =>
      !Listed(plan, Zst(path)) && done <= |plan| && !Moves(plan[..done], path, form) && NeverMoved(h[1..], path, form)
  }

  lemma {:induction false} NeverMovedIsUndisturbed(
    codec: Codec, h: seq<Attempt>, path: string, form: Compression, x: Bytes)
    requires NeverMoved(h, path, form)
    ensures Undisturbed(codec, h, path, form, x)
    decreases |h|
  {
    if h != [] {
      match h[0]
      case Completed(plan, source) =>
        NeverMovedIsUndisturbed(codec, h[1..], path, Planned(plan, path).value.compression, Content(source, path));
      case Stopped(plan, source, done, torn) =>
        PlannedIsListed(plan[..done], Zst(path));
        assert forall g :: g in plan[..done] ==> g in plan;
        assert !TornOver(h[0], path, form);
        NeverMovedIsUndisturbed(codec, h[1..], path, form, x);
    }
  }

  /** The same from what the plans say. */
  lemma NeverMovedChains(codec: Codec, d: Files, runKey: string, h: seq<Attempt>, path: string)
    requires codec.Faithful() && Guarded(path) && Runs(codec, d, runKey, h) && KeepsSending(h, path)
    requires h != [] && h[0].Completed? && NeverMoved(h, path, Plain)
    ensures Chain(path, Sent(h, path))
  {
    NeverMovedIsUndisturbed(codec, h, path, Plain, []);
    GuardedContentsChain(codec, d, runKey, h, path);
  }

  /** Every sync completes and sends the file; none overrides it, as only one that sends its compressed name can. */
  predicate AllSucceed(codec: Codec, h: seq<Attempt>, path: string) {
    forall a :: a in h ==> Sends(a, path) && !Overrides(codec, a, path)
  }

  lemma {:induction false} SuccessIsUndisturbed(
    codec: Codec, h: seq<Attempt>, path: string, form: Compression, x: Bytes)
    requires AllSucceed(codec, h, path)
    ensures KeepsSending(h, path) && Undisturbed(codec, h, path, form, x)
    decreases |h|
  {
    if h != [] {
      assert h[0] in h && forall a :: a in h[1..] ==> a in h;
      PlannedIsListed(h[0].plan, path);
      SuccessIsUndisturbed(codec, h[1..], path, Planned(h[0].plan, path).value.compression, Content(h[0].source, path));
    }
  }

  /**
   Successful syncs, any number of them, whatever else they send and however
   often the file crosses the size threshold: each log begins with all before
   it, and `run.json` and `config.json` never change.
  */
  lemma SuccessfulSyncsChain(codec: Codec, d: Files, runKey: string, h: seq<Attempt>, path: string)
    requires codec.Faithful() && Guarded(path) && Runs(codec, d, runKey, h) && AllSucceed(codec, h, path)
    ensures Chain(path, Sent(h, path))
  {
    if h != [] {
      assert h[0] in h;
      SuccessIsUndisturbed(codec, h, path, Plain, []);
      GuardedContentsChain(codec, d, runKey, h, path);
    }
  }

  lemma {:induction false} ChainPairs(path: string, sent: seq<Bytes>, i: nat, j: nat)
    requires Chain(path, sent) && i < j < |sent|
    ensures Continues(path, sent[i], sent[j])
    decreases |sent|
  {
    if i == 0 {
      assert sent[1..][j - 1] in sent[1..];
    } else {
      ChainPairs(path, sent[1..], i - 1, j - 1);
    }
  }

  /** The two logs grow: what a successful sync sends begins with what any sync before it sent. */
  lemma LogsGrow(codec: Codec, d: Files, runKey: string, h: seq<Attempt>, path: string, i: nat, j: nat)
    requires codec.Faithful() && Runs(codec, d, runKey, h) && AllSucceed(codec, h, path)
    requires path == "events.jsonl" || path == "metrics.csv"
    requires i < j < |h|
    ensures path in h[i].source && path in h[j].source && h[i].source[path] <= h[j].source[path]
  {
    assert AppendOnly(path);
    SentPair(codec, d, runKey, h, path, i, j);
  }

  /** The two files that identify a run never change. */
  lemma IdentityStays(codec: Codec, d: Files, runKey: string, h: seq<Attempt>, path: string, i: nat, j: nat)
    requires codec.Faithful() && Runs(codec, d, runKey, h) && AllSucceed(codec, h, path)
    requires path == "run.json" || path == "config.json"
    requires i < j < |h|
    ensures path in h[i].source && path in h[j].source && h[i].source[path] == h[j].source[path]
  {
    assert Immutable(path) && !AppendOnly(path);
    SentPair(codec, d, runKey, h, path, i, j);
  }

  lemma SentPair(codec: Codec, d: Files, runKey: string, h: seq<Attempt>, path: string, i: nat, j: nat)
    requires codec.Faithful() && Guarded(path) && Runs(codec, d, runKey, h) && AllSucceed(codec, h, path) && i < j < |h|
    ensures path in h[i].source && path in h[j].source && Continues(path, h[i].source[path], h[j].source[path])
  {
    SuccessfulSyncsChain(codec, d, runKey, h, path);
    SentByEach(codec, h, path, i);
    SentByEach(codec, h, path, j);
    ChainPairs(path, Sent(h, path), i, j);
    SourceHasIt(codec, d, runKey, h, path, i);
    SourceHasIt(codec, d, runKey, h, path, j);
  }

  lemma {:induction false} SentByEach(codec: Codec, h: seq<Attempt>, path: string, i: nat)
    requires AllSucceed(codec, h, path) && i < |h|
    ensures |Sent(h, path)| == |h| && Sent(h, path)[i] == Content(h[i].source, path)
    decreases |h|
  {
    assert h[0] in h && forall a :: a in h[1..] ==> a in h;
    if |h| > 1 {
      SentByEach(codec, h[1..], path, if i > 0 then i - 1 else 0);
    } else {
      assert Sent(h[1..], path) == [];
    }
  }

  lemma {:induction false} SourceHasIt(codec: Codec, d: Files, runKey: string, h: seq<Attempt>, path: string, i: nat)
    requires Runs(codec, d, runKey, h) && i < |h| && Sends(h[i], path)
    ensures path in h[i].source
    decreases |h|
  {
    if i > 0 {
      SourceHasIt(codec, Post(codec, d, runKey, h[0]), runKey, h[1..], path, i - 1);
    } else {
      StepsPlaceEverything(codec, d, ReceiptAt(codec, d).value, h[0].plan, h[0].source, []);
    }
  }

  lemma {:induction false} SentAppended(h: seq<Attempt>, a: Attempt, path: string)
    ensures Sent(h + [a], path) == Sent(h, path) + if Sends(a, path) then [Content(a.source, path)] else []
  {
    if h == [] {
      assert h + [a] == [a];
    } else {
      assert (h + [a])[0] == h[0] && (h + [a])[1..] == h[1..] + [a];
      SentAppended(h[1..], a, path);
    }
  }

  lemma HistoryIsTracked(codec: Codec, d: Files, runKey: string, h: seq<Attempt>, final: Files, path: string)
    requires codec.Faithful() && Guarded(path) && KeepsSending(h, path) && RunsTo(codec, d, runKey, h, final)
    requires h != [] && h[0].Completed?
    ensures Tracks(codec, final, path, LedgerFrom(codec, UNKNOWN, h, path))
    ensures Sent(h, path) != [] && LedgerFrom(codec, UNKNOWN, h, path).sent == Sent(h, path)[|Sent(h, path)| - 1]
  {
    CompletedTracks(codec, d, runKey, h[0], path, UNKNOWN);
    HistoryTracks(codec, Post(codec, d, runKey, h[0]), runKey, h[1..], final, path, Note(codec, UNKNOWN, h[0], path));
    LastSent(codec, UNKNOWN, h, path);
  }

  /**
   After any history that starts with a completed sync, and whose contents are a
   chain so far: they stay one whatever sync completes next, if and only if the
   ledger is safe.
  */
  lemma ChainGoesOnIff(codec: Codec, d: Files, runKey: string, h: seq<Attempt>, final: Files, path: string)
    requires codec.Faithful() && Guarded(path) && KeepsSending(h, path) && RunsTo(codec, d, runKey, h, final)
    requires h != [] && h[0].Completed? && Chain(path, Sent(h, path))
    ensures (forall a :: CanFollow(codec, final, runKey, a, path) ==> Chain(path, Sent(h + [a], path))) <==>
            Safe(codec, path, LedgerFrom(codec, UNKNOWN, h, path))
  {
    var l := LedgerFrom(codec, UNKNOWN, h, path);
    HistoryIsTracked(codec, d, runKey, h, final, path);
    forall a | CanFollow(codec, final, runKey, a, path)
      ensures Chain(path, Sent(h + [a], path)) <==> Continues(path, l.sent, Content(a.source, path))
    {
      SentAppended(h, a, path);
      ChainGoesOn(path, Sent(h, path), Content(a.source, path));
    }
    NextContinuesIff(codec, final, runKey, path, l);
  }
}
