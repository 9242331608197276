/**
 Histories of one sync destination: syncs that complete, and syncs that are
 refused or killed part-way. A ledger of the history says what the form listed
 for a guarded file holds by now, and the guard's verdict follows from it.
*/
module SyncHistory {
  import opened Wrappers
  import opened TextOrder
  import opened SyncSteps
  import opened SyncReceipts

  predicate Guarded(path: string) {
    AppendOnly(path) || Immutable(path)
  }

  /** What the guards require of two successive contents of a guarded file. */
  predicate Continues(path: string, x: Bytes, y: Bytes) {
    if AppendOnly(path) then x <= y else x == y
  }

  /** What an unfinished sync left of the file it was placing. */
  datatype Torn = Clean | Partial(bytes: Bytes) | TwoForms

  /** One sync of the destination, and how far it got. */
  datatype Attempt =
    | Completed(plan: seq<PlannedFile>, source: Files)
    | Stopped(plan: seq<PlannedFile>, source: Files, done: nat, torn: Torn)

  /** Where a sync that stopped had got to with its whole files. */
  function Reached(codec: Codec, d: Files, a: Attempt): Progress
    requires a.Stopped? && a.done <= |a.plan|
  {
    match ReceiptAt(codec, d)
    case Err(e) => Progress(d, Err(e))
    case Ok(previous) => Steps(codec, d, previous, a.plan[..a.done], a.source, [])
  }

  /** The torn file was being placed, so its guard had let it through. */
  predicate TornIsPossible(codec: Codec, d: Files, a: Attempt)
    requires a.Stopped? && a.done <= |a.plan|
  {
    a.torn.Clean? ||
    (a.done < |a.plan| && a.plan[a.done].path in a.source && ReceiptAt(codec, d).Ok? &&
     Guard(codec, Reached(codec, d, a).files, ReceiptAt(codec, d).value, a.plan[a.done].path,
         a.source[a.plan[a.done].path]).None?)
  }

  predicate Possible(codec: Codec, d: Files, runKey: string, a: Attempt) {
    && Ordered(a.plan)
    && match a
       case Completed(plan, source) => Execution(codec, d, runKey, plan, source).result.Ok?
       case Stopped(plan, source, done, torn) =>
         done <= |plan| && Reached(codec, d, a).result.Ok? && TornIsPossible(codec, d, a)
  }

  /** The destination after an attempt. */
  function Post(codec: Codec, d: Files, runKey: string, a: Attempt): Files
    requires Possible(codec, d, runKey, a)
  {
    match a
    case Completed(plan, source) => Execution(codec, d, runKey, plan, source).files
    case Stopped(plan, source, done, torn) =>
      var mid := Reached(codec, d, a).files;
      match torn
      case Clean => mid
      case Partial(bytes) => mid[plan[done].PartPath() := bytes]
      case TwoForms => Copied(codec, mid, plan[done], source[plan[done].path])
  }

  predicate Runs(codec: Codec, d: Files, runKey: string, h: seq<Attempt>)
    decreases |h|
  {
    h == [] || (Possible(codec, d, runKey, h[0]) && Runs(codec, Post(codec, d, runKey, h[0]), runKey, h[1..]))
  }

  predicate RunsTo(codec: Codec, d: Files, runKey: string, h: seq<Attempt>, final: Files)
    decreases |h|
  {
    if h == [] then d == final
    else Possible(codec, d, runKey, h[0]) && RunsTo(codec, Post(codec, d, runKey, h[0]), runKey, h[1..], final)
  }

  // A refused sync is one that stopped cleanly before some file.

  lemma {:induction false} RefusalStopsSomewhere(
    codec: Codec, d: Files, previous: Option<Receipt>, plan: seq<PlannedFile>, source: Files, written: seq<SyncedFile>)
    returns (done: nat)
    requires Steps(codec, d, previous, plan, source, written).result.Err?
    ensures done < |plan|
    ensures Steps(codec, d, previous, plan[..done], source, written).result.Ok?
    ensures Steps(codec, d, previous, plan[..done], source, written).files ==
        Steps(codec, d, previous, plan, source, written).files
    decreases |plan|
  {
    var f := plan[0];
    if f.path !in source || Guard(codec, d, previous, f.path, source[f.path]).Some? {
      done := 0;
    } else {
      var rest := RefusalStopsSomewhere(codec, Placed(codec, d, f, source[f.path]), previous, plan[1..], source,
          written + [f.Synced(codec, source[f.path])]);
      done := rest + 1;
      assert plan[..done][1..] == plan[1..][..rest];
    }
  }

  lemma RefusedIsStopped(
    codec: Codec, d: Files, runKey: string, plan: seq<PlannedFile>, source: Files) returns (a: Attempt)
    requires Ordered(plan) && ReceiptAt(codec, d).Ok? && Execution(codec, d, runKey, plan, source).result.Err?
    ensures a.Stopped? && a.plan == plan && Possible(codec, d, runKey, a)
    ensures Post(codec, d, runKey, a) == Execution(codec, d, runKey, plan, source).files
  {
    var done := RefusalStopsSomewhere(codec, d, ReceiptAt(codec, d).value, plan, source, []);
    a := Stopped(plan, source, done, Clean);
  }

  // What the guard requires

  /** What a listed form still requires of the next content: that form's own content, decoded. */
  function Required(codec: Codec, d: Files, previous: Option<Receipt>, path: string): Option<Result<Bytes, Error>> {
    match PreviousForm(previous, path)
    case None => None
    case Some(e) =>
      if e.storedPath !in d then None
      else match codec.Load(e.compression, d[e.storedPath])
        case None => Some(Err(Unreadable(path)))
        case Some(held) => Some(Ok(held))
  }

  lemma GuardPassesIff(codec: Codec, d: Files, previous: Option<Receipt>, path: string, y: Bytes)
    requires Guarded(path)
    ensures Guard(codec, d, previous, path, y).None? <==>
            var r := Required(codec, d, previous, path);
            r.None? || (r.value.Ok? && Continues(path, r.value.value, y))
  {
  }

  /** A content that does not continue `x`. Only the empty append-only file has none. */
  lemma SomethingElse(path: string, x: Bytes) returns (y: Bytes)
    requires Guarded(path) && !(AppendOnly(path) && x == [])
    ensures !Continues(path, x, y)
  {
    y := if AppendOnly(path) then [] else x + [0];
  }

  /**
   The guard lets only continuations of `x` through if and only if everything
   continues `x`, or the listed form is there and holds a continuation of `x`
   or nothing that can be decoded.
  */
  lemma GuardBindsIff(codec: Codec, d: Files, previous: Option<Receipt>, path: string, x: Bytes)
    requires Guarded(path)
    ensures (forall y :: Guard(codec, d, previous, path, y).None? ==> Continues(path, x, y)) <==>
            || (AppendOnly(path) && x == [])
            || match Required(codec, d, previous, path)
               case None => false
               case Some(r) => r.Err? || Continues(path, x, r.value)
  {
    var r := Required(codec, d, previous, path);
    if !(AppendOnly(path) && x == []) {
      var y := SomethingElse(path, x);
      if r.None? { GuardPassesIff(codec, d, previous, path, y); }
      if r.Some? && r.value.Ok? { GuardPassesIff(codec, d, previous, path, r.value.value); }
    }
    forall y
      ensures Guard(codec, d, previous, path, y).None? <==>
          r.None? || (r.value.Ok? && Continues(path, r.value.value, y))
    {
      GuardPassesIff(codec, d, previous, path, y);
    }
  }

  /** The guard lets everything through exactly when the listed form is gone, or holds an empty append-only file. */
  lemma GuardIsIdleIff(codec: Codec, d: Files, previous: Option<Receipt>, path: string)
    requires Guarded(path)
    ensures (forall y :: Guard(codec, d, previous, path, y).None?) <==>
            match PreviousForm(previous, path)
            case None => true
            case Some(e) =>
              e.storedPath !in d || (AppendOnly(path) && codec.Load(e.compression, d[e.storedPath]) == Some([]))
  {
    var e := PreviousForm(previous, path);
    if e.Some? && e.value.storedPath in d {
      var held := codec.Load(e.value.compression, d[e.value.storedPath]);
      var y := if AppendOnly(path) || held.None? then [] else held.value + [0];
      assert Guard(codec, d, previous, path, y).None? <==> held.Some? && Continues(path, held.value, y);
    }
  }

  // A guarded file and the others of a plan

  lemma GuardedNames(path: string)
    requires Guarded(path)
    ensures path != RECEIPT && !PartLike(path) && path[|path| - 1] != 't'
  {
  }

  lemma OthersLeaveGuarded(g: PlannedFile, path: string)
    requires Guarded(path) && g.path != path && g.path != Zst(path)
    ensures !g.Touches(path) && !g.Touches(Zst(path))
  {
    GuardedNames(path);
    PartNames(g.StoredPath(), path);
    assert Zst(g.path)[|Zst(g.path)| - 1] == 't';
    if Zst(g.path) == Zst(path) { ZstInjective(g.path, path); }
  }

  function FormOf(path: string, c: Compression): string {
    PlannedFile(path, c).StoredPath()
  }

  /** The receipt lists the file in the form it is bound in. */
  predicate Armed(previous: Option<Receipt>, path: string, c: Compression) {
    var e := PreviousForm(previous, path);
    e.Some? && e.value.compression == c && e.value.storedPath == FormOf(path, c)
  }

  /** What a name holds at the destination. */
  function Held(d: Files, name: string): Option<Bytes> {
    if name in d then Some(d[name]) else None
  }

  /** What a name holds once a file has been copied and renamed into place, its other form not yet removed. */
  function HeldAfterCopy(
    codec: Codec, held: Option<Bytes>, f: PlannedFile, content: Bytes, name: string): Option<Bytes> {
    if f.StoredPath() == name then Some(codec.Store(f.compression, content)) else if f.PartPath() == name then None
        else held
  }

  /** What a name holds once a file has been placed. */
  function HeldAfter(codec: Codec, held: Option<Bytes>, f: PlannedFile, content: Bytes, name: string): Option<Bytes> {
    if f.OtherPath() == name then None else HeldAfterCopy(codec, held, f, content, name)
  }

  /** What a plan sends of a file; a sync gets to a file only when the source has it. */
  function Content(source: Files, path: string): Bytes {
    if path in source then source[path] else []
  }

  /** What a name holds once every file of a plan has been placed. */
  function HeldAfterAll(
    codec: Codec, held: Option<Bytes>, plan: seq<PlannedFile>, source: Files, name: string): Option<Bytes>
    decreases |plan|
  {
    if plan == [] then held
    else HeldAfterAll(codec, HeldAfter(codec, held, plan[0], Content(source, plan[0].path), name), plan[1..], source,
        name)
  }

  lemma {:induction false} AfterHolds(codec: Codec, d: Files, plan: seq<PlannedFile>, source: Files, name: string)
    requires Available(plan, source)
    ensures Held(After(codec, d, plan, source), name) == HeldAfterAll(codec, Held(d, name), plan, source, name)
    decreases |plan|
  {
    if plan != [] {
      var f, content := plan[0], source[plan[0].path];
      AfterHolds(codec, Placed(codec, d, f, content), plan[1..], source, name);
      assert Held(Placed(codec, d, f, content), name) == HeldAfter(codec, Held(d, name), f, content, name);
    }
  }

  /** A plan that stores under a name decides what it holds, whatever it held before. */
  lemma {:induction false} StoredDecides(
    codec: Codec, a: Option<Bytes>, b: Option<Bytes>, plan: seq<PlannedFile>, source: Files, f: PlannedFile)
    requires f in plan
    ensures HeldAfterAll(codec, a, plan, source, f.StoredPath()) == HeldAfterAll(codec, b, plan, source, f.StoredPath())
    decreases |plan|
  {
    var name, g := f.StoredPath(), plan[0];
    if g != f {
      StoredDecides(codec, HeldAfter(codec, a, g, Content(source, g.path), name),
                    HeldAfter(codec, b, g, Content(source, g.path), name), plan[1..], source, f);
    }
  }

  lemma {:induction false} StepsKeepReceipt(
    codec: Codec, d: Files, previous: Option<Receipt>, plan: seq<PlannedFile>, source: Files, written: seq<SyncedFile>)
    requires !Listed(plan, RECEIPT)
    requires Steps(codec, d, previous, plan, source, written).result.Ok?
    ensures SameAt(Steps(codec, d, previous, plan, source, written).files, d, RECEIPT)
    decreases |plan|
  {
    StepsPlaceEverything(codec, d, previous, plan, source, written);
    forall f | f in plan
      ensures !f.Touches(RECEIPT)
    {
      ReceiptNameIsApart(f);
    }
    UntouchedStays(codec, d, plan, source, RECEIPT);
  }

  // What a history leaves of a guarded file

  /** What the last completed sync sent of a file, the form its receipt lists, and the bytes that form has by now. */
  datatype Ledger = Ledger(sent: Bytes, form: Compression, held: Option<Bytes>)

  /** The plan's entry for a path. */
  function Planned(plan: seq<PlannedFile>, path: string): Option<PlannedFile> {
    if plan == [] then None else if plan[0].path == path then Some(plan[0]) else Planned(plan[1..], path)
  }

  lemma {:induction false} PlannedIsListed(plan: seq<PlannedFile>, path: string)
    ensures Planned(plan, path).Some? <==> Listed(plan, path)
    ensures Planned(plan, path).Some? ==> Planned(plan, path).value in plan && Planned(plan, path).value.path == path
  {
    if plan != [] {
      PlannedIsListed(plan[1..], path);
      assert plan == [plan[0]] + plan[1..];
    }
  }

  /** The ledger after one more sync. */
  function Note(codec: Codec, l: Ledger, a: Attempt, path: string): Ledger {
    match a
    case Completed(plan, source) =>
      (match Planned(plan, path)
       case None => l
       case Some(f) =>
         Ledger(Content(source, path), f.compression,
                HeldAfterAll(codec, None, plan, source, FormOf(path, f.compression))))
    case Stopped(plan, source, done, torn) =>
      var name := FormOf(path, l.form);
      var whole := HeldAfterAll(codec, l.held, if done <= |plan| then plan[..done] else plan, source, name);
      if done >= |plan| then l.(held := whole)
      else match torn
        case Clean => l.(held := whole)
        case Partial(bytes) => l.(held := if plan[done].PartPath() == name then Some(bytes) else whole)
        case TwoForms => l.(held := HeldAfterCopy(codec, whole, plan[done], Content(source, plan[done].path), name))
  }

  function LedgerFrom(codec: Codec, l: Ledger, h: seq<Attempt>, path: string): Ledger
    decreases |h|
  {
    if h == [] then l else LedgerFrom(codec, Note(codec, l, h[0], path), h[1..], path)
  }

  /** A completed sync that sends the file. */
  predicate Sends(a: Attempt, path: string) {
    a.Completed? && Listed(a.plan, path)
  }

  /** Every completed sync sends the file, and no sync that stopped sends a file under the receipt's name. */
  predicate KeepsSending(h: seq<Attempt>, path: string) {
    h == [] || ((if h[0].Completed? then Sends(h[0], path) else !Listed(h[0].plan, RECEIPT)) &&
        KeepsSending(h[1..], path))
  }

  /** The listed form has bytes that continue `x` once decoded, or that cannot be decoded. */
  predicate Binds(codec: Codec, path: string, form: Compression, held: Option<Bytes>, x: Bytes) {
    held.Some? &&
    match codec.Load(form, held.value)
    case None => true
    case Some(content) => Continues(path, x, content)
  }

  /** What the next sync sends has to continue what the last completed one sent. */
  predicate Safe(codec: Codec, path: string, l: Ledger) {
    (AppendOnly(path) && l.sent == []) || Binds(codec, path, l.form, l.held, l.sent)
  }

  /** The destination is as the ledger says. */
  predicate Tracks(codec: Codec, d: Files, path: string, l: Ledger) {
    && ReceiptAt(codec, d).Ok?
    && Armed(ReceiptAt(codec, d).value, path, l.form)
    && Held(d, FormOf(path, l.form)) == l.held
  }

  lemma ReachedTracks(codec: Codec, d: Files, runKey: string, a: Attempt, name: string)
    requires a.Stopped? && Possible(codec, d, runKey, a) && !Listed(a.plan, RECEIPT)
    ensures SameAt(Reached(codec, d, a).files, d, RECEIPT)
    ensures Held(Reached(codec, d, a).files, name) ==
        HeldAfterAll(codec, Held(d, name), a.plan[..a.done], a.source, name)
  {
    var previous, whole := ReceiptAt(codec, d).value, a.plan[..a.done];
    assert forall f :: f in whole ==> f in a.plan;
    StepsPlaceEverything(codec, d, previous, whole, a.source, []);
    AfterHolds(codec, d, whole, a.source, name);
    StepsKeepReceipt(codec, d, previous, whole, a.source, []);
  }

  lemma TornKeepsReceipt(codec: Codec, d: Files, runKey: string, a: Attempt)
    requires a.Stopped? && Possible(codec, d, runKey, a) && !Listed(a.plan, RECEIPT)
    ensures SameAt(Post(codec, d, runKey, a), Reached(codec, d, a).files, RECEIPT)
  {
    if !a.torn.Clean? {
      assert a.plan[a.done] in a.plan;
      ReceiptNameIsApart(a.plan[a.done]);
    }
  }

  /** A sync that stopped leaves of the file exactly what the ledger notes. */
  lemma StoppedTracks(codec: Codec, d: Files, runKey: string, a: Attempt, path: string, l: Ledger)
    requires a.Stopped? && Possible(codec, d, runKey, a) && !Listed(a.plan, RECEIPT) && Tracks(codec, d, path, l)
    ensures Tracks(codec, Post(codec, d, runKey, a), path, Note(codec, l, a, path))
  {
    var name := FormOf(path, l.form);
    ReachedTracks(codec, d, runKey, a, name);
    TornKeepsReceipt(codec, d, runKey, a);
    assert Held(Post(codec, d, runKey, a), name) == Note(codec, l, a, path).held;
  }

  // A completed sync

  lemma {:induction false} EntryOfPlanned(codec: Codec, plan: seq<PlannedFile>, source: Files, f: PlannedFile)
    requires Ordered(plan) && Available(plan, source) && f in plan
    ensures Entry(Entries(codec, plan, source), f.path) == Some(f.Synced(codec, source[f.path]))
    decreases |plan|
  {
    if plan[0] != f {
      BeforeTotal(f.path, f.path);
      EntryOfPlanned(codec, plan[1..], source, f);
    }
  }

  /** Whatever the destination held, after a completed sync it is as the ledger notes. */
  lemma CompletedTracks(codec: Codec, d: Files, runKey: string, a: Attempt, path: string, l: Ledger)
    requires codec.Faithful() && Guarded(path) && Sends(a, path) && Possible(codec, d, runKey, a)
    ensures Available(a.plan, a.source)
    ensures Tracks(codec, Post(codec, d, runKey, a), path, Note(codec, l, a, path))
  {
    PlannedIsListed(a.plan, path);
    var f := Planned(a.plan, path).value;
    var name := FormOf(path, f.compression);
    ReceiptHoldsIff(codec, d, runKey, a.plan, a.source);
    StepsPlaceEverything(codec, d, ReceiptAt(codec, d).value, a.plan, a.source, []);
    EntryOfPlanned(codec, a.plan, a.source, f);
    AfterHolds(codec, d, a.plan, a.source, name);
    StoredDecides(codec, Held(d, name), None, a.plan, a.source, f);
    GuardedNames(path);
    ReceiptNameIsApart(f);
  }

  /** At any time after a first completed sync, the destination is as the ledger of the history says. */
  lemma {:induction false} HistoryTracks(
    codec: Codec, d: Files, runKey: string, h: seq<Attempt>, final: Files, path: string, l: Ledger)
    requires codec.Faithful() && Guarded(path) && KeepsSending(h, path)
    requires RunsTo(codec, d, runKey, h, final) && Tracks(codec, d, path, l)
    ensures Tracks(codec, final, path, LedgerFrom(codec, l, h, path))
    decreases |h|
  {
    if h != [] {
      if h[0].Completed? {
        CompletedTracks(codec, d, runKey, h[0], path, l);
      } else {
        StoppedTracks(codec, d, runKey, h[0], path, l);
      }
      HistoryTracks(codec, Post(codec, d, runKey, h[0]), runKey, h[1..], final, path, Note(codec, l, h[0], path));
    }
  }

  // Plans of one file

  lemma StepsOfOne(codec: Codec, d: Files, previous: Option<Receipt>, f: PlannedFile, y: Bytes)
    requires Guard(codec, d, previous, f.path, y).None?
    ensures Steps(codec, d, previous, [f], map[f.path := y], []) ==
        Progress(Placed(codec, d, f, y), Ok([f.Synced(codec, y)]))
  {
    var plan, source := [f], map[f.path := y];
    assert plan[0] == f && plan[1..] == [] && source[f.path] == y;
    assert [] + [f.Synced(codec, y)] == [f.Synced(codec, y)];
    var d1 := Placed(codec, d, f, y);
    assert Steps(codec, d1, previous, [], source, [f.Synced(codec, y)]) == Progress(d1, Ok([f.Synced(codec, y)]));
  }

  /** A plan of one file, when its guard has nothing to say. */
  lemma OneFileCompletes(codec: Codec, d: Files, runKey: string, f: PlannedFile, y: Bytes)
    requires codec.Faithful() && f.path != RECEIPT && ReceiptAt(codec, d).Ok?
    requires Guard(codec, d, ReceiptAt(codec, d).value, f.path, y).None?
    ensures
      var a := Completed([f], map[f.path := y]);
      && Possible(codec, d, runKey, a)
      && SameAt(Post(codec, d, runKey, a), Placed(codec, d, f, y), f.StoredPath())
      && ReceiptAt(codec, Post(codec, d, runKey, a)).Ok?
      && ReceiptAt(codec, Post(codec, d, runKey, a)).value.Some?
      && ReceiptAt(codec, Post(codec, d, runKey, a)).value.value.files == [f.Synced(codec, y)]
  {
    StepsOfOne(codec, d, ReceiptAt(codec, d).value, f, y);
    ReceiptNameIsApart(f);
  }

  /** A plan of one file, killed once the file has been placed. */
  lemma OneFileMoves(codec: Codec, d: Files, runKey: string, f: PlannedFile, y: Bytes)
    requires f.path != RECEIPT && ReceiptAt(codec, d).Ok?
    requires Guard(codec, d, ReceiptAt(codec, d).value, f.path, y).None?
    ensures
      var a := Stopped([f], map[f.path := y], 1, Clean);
      Possible(codec, d, runKey, a) && Post(codec, d, runKey, a) == Placed(codec, d, f, y)
  {
    StepsOfOne(codec, d, ReceiptAt(codec, d).value, f, y);
    assert [f][..1] == [f];
  }

  // Generations

  /** The destination's receipt is readable, or absent, and says how many syncs have completed. */
  predicate AtGeneration(codec: Codec, d: Files, g: nat) {
    ReceiptAt(codec, d).Ok? &&
    match ReceiptAt(codec, d).value
    case None => g == 0
    case Some(r) => r.generation == g
  }

  function Completions(h: seq<Attempt>): nat {
    if h == [] then 0 else Counted(h[0]) + Completions(h[1..])
  }

  lemma StoppedKeepsReceipt(codec: Codec, d: Files, runKey: string, a: Attempt)
    requires a.Stopped? && Possible(codec, d, runKey, a) && !Listed(a.plan, RECEIPT)
    ensures forall g :: AtGeneration(codec, d, g) ==> AtGeneration(codec, Post(codec, d, runKey, a), g)
  {
    var done := a.plan[..a.done];
    assert forall f :: f in done ==> f in a.plan;
    StepsKeepReceipt(codec, d, ReceiptAt(codec, d).value, done, a.source, []);
    if !a.torn.Clean? { ReceiptNameIsApart(a.plan[a.done]); }
    assert SameAt(Post(codec, d, runKey, a), d, RECEIPT);
  }

  predicate SpareTheReceipt(h: seq<Attempt>) {
    h == [] || (!Listed(h[0].plan, RECEIPT) && SpareTheReceipt(h[1..]))
  }

  lemma CompletionCounts(codec: Codec, d: Files, runKey: string, a: Attempt, g: nat)
    requires codec.Faithful() && AtGeneration(codec, d, g) && a.Completed? && Possible(codec, d, runKey, a)
    ensures AtGeneration(codec, Post(codec, d, runKey, a), g + 1)
  {
    var r := Execution(codec, d, runKey, a.plan, a.source).result.value.receipt;
    assert codec.read(codec.write(r)) == Some(r);
  }

  function Counted(a: Attempt): nat {
    if a.Completed? then 1 else 0
  }

  lemma AttemptCounts(codec: Codec, d: Files, runKey: string, a: Attempt, g: nat)
    requires codec.Faithful() && Possible(codec, d, runKey, a) && !Listed(a.plan, RECEIPT) && AtGeneration(codec, d, g)
    ensures AtGeneration(codec, Post(codec, d, runKey, a), g + Counted(a))
  {
    if a.Completed? {
      CompletionCounts(codec, d, runKey, a, g);
    } else {
      StoppedKeepsReceipt(codec, d, runKey, a);
    }
  }

  /** The receipt counts the completed syncs, and only those. */
  lemma {:induction false} GenerationCountsCompletions(
    codec: Codec, d: Files, runKey: string, h: seq<Attempt>, final: Files, g: nat)
    requires codec.Faithful() && RunsTo(codec, d, runKey, h, final) && SpareTheReceipt(h) && AtGeneration(codec, d, g)
    ensures AtGeneration(codec, final, g + Completions(h))
    decreases |h|
  {
    if h != [] {
      AttemptCounts(codec, d, runKey, h[0], g);
      GenerationCountsCompletions(codec, Post(codec, d, runKey, h[0]), runKey, h[1..], final, g + Counted(h[0]));
    }
  }
}
