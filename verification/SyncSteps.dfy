/**
 What one `runvault sync` does to the directory an aggregation repository keeps
 for a run.

 The destination is a map from relative path to bytes. zstd, the content digest
 and the JSON form of the receipt are given by a `Codec`; nothing is assumed of
 them beyond decoding what they encoded.
*/
module SyncSteps {
  import opened Wrappers
  import opened TextOrder

  type Files = map<string, Bytes>

  const RECEIPT := "sync.json"

  /** The two forms a file can have in the vault. */
  datatype Compression = Plain | Zstd

  datatype Digest = Digest(hash: string, bytes: nat)

  /** An entry of a receipt. */
  datatype SyncedFile = SyncedFile(path: string, storedPath: string, compression: Compression, source: Digest,
      stored: Digest)

  datatype Receipt = Receipt(runKey: string, generation: nat, files: seq<SyncedFile>)

  datatype Error =
    | Unreadable(path: string)
    | Missing(path: string)
    | Rewritten(path: string)
    | Contradicts(path: string)

  /** The encodings the protocol relies on. */
  datatype Codec = Codec(
    encode: Bytes -> Bytes,
    decode: Bytes -> Option<Bytes>,
    hash: Bytes -> string,
    write: Receipt -> Bytes,
    read: Bytes -> Option<Receipt>)
  {
    ghost predicate Faithful() {
      && (forall b :: decode(encode(b)) == Some(b))
      && (forall r :: read(write(r)) == Some(r))
    }

    function Store(compression: Compression, content: Bytes): Bytes {
      if compression.Plain? then content else encode(content)
    }

    function Load(compression: Compression, stored: Bytes): Option<Bytes> {
      if compression.Plain? then Some(stored) else decode(stored)
    }

    function DigestOf(content: Bytes): Digest {
      Digest(hash(content), |content|)
    }
  }

  predicate AppendOnly(path: string) {
    path == "events.jsonl" || path == "metrics.csv"
  }

  predicate Immutable(path: string) {
    path == "run.json" || path == "config.json"
  }

  /** Whether the file name, what follows the last slash, has a dot that is not its first character. */
  predicate HasExtension(path: string) {
    path != [] &&
    var last := |path| - 1;
    path[last] != '/' &&
    if path[last] == '.' then last > 0 && path[last - 1] != '/' else HasExtension(path[..last])
  }

  /** The name a stored file is written under before it is renamed into place. */
  function PartName(stored: string): string {
    if HasExtension(stored) then stored + ".part" else stored + ".tmp.part"
  }

  /** The compressed spelling of a path. */
  function Zst(path: string): string {
    path + ".zst"
  }

  /** A path and the form it is to be stored in. */
  datatype PlannedFile = PlannedFile(path: string, compression: Compression) {
    function StoredPath(): string {
      if compression.Plain? then path else Zst(path)
    }

    function OtherPath(): string {
      if compression.Plain? then Zst(path) else path
    }

    function PartPath(): string {
      PartName(StoredPath())
    }

    /** The paths placing this file may change. */
    predicate Touches(path: string) {
      path == StoredPath() || path == OtherPath() || path == PartPath()
    }

    function Synced(codec: Codec, content: Bytes): SyncedFile {
      SyncedFile(path, StoredPath(), compression, codec.DigestOf(content),
          codec.DigestOf(codec.Store(compression, content)))
    }
  }

  predicate Listed(plan: seq<PlannedFile>, path: string) {
    exists f :: f in plan && f.path == path
  }

  /** Plans come out of an ordered set of paths. */
  predicate Ordered(plan: seq<PlannedFile>) {
    forall i, j :: 0 <= i < j < |plan| ==> Before(plan[i].path, plan[j].path)
  }

  /** What the receipt's name holds, decoded; nothing when the name is absent. */
  function ReceiptAt(codec: Codec, d: Files): Result<Option<Receipt>, Error> {
    if RECEIPT !in d then Ok(None)
    else match codec.read(d[RECEIPT])
      case None => Err(Unreadable(RECEIPT))
      case Some(r) => Ok(Some(r))
  }

  /** The first entry of a receipt for a path. */
  function Entry(files: seq<SyncedFile>, path: string): Option<SyncedFile> {
    if files == [] then None else if files[0].path == path then Some(files[0]) else Entry(files[1..], path)
  }

  function PreviousForm(previous: Option<Receipt>, path: string): Option<SyncedFile> {
    if previous.None? then None else Entry(previous.value.files, path)
  }

  /** Why replacing a stored form by `content` is refused, if it is. */
  function Refusal(codec: Codec, path: string, stored: Bytes, compression: Compression, content: Bytes): Option<Error> {
    if !AppendOnly(path) && !Immutable(path) then None
    else match codec.Load(compression, stored)
      case None => Some(Unreadable(path))
      case Some(held) =>
        if AppendOnly(path) then (if held <= content then None else Some(Rewritten(path)))
        else if held == content then None else Some(Contradicts(path))
  }

  function Guard(codec: Codec, d: Files, previous: Option<Receipt>, path: string, content: Bytes): Option<Error> {
    match PreviousForm(previous, path)
    case None => None
    case Some(entry) =>
      if entry.storedPath !in d then None else Refusal(codec, path, d[entry.storedPath], entry.compression, content)
  }

  /** The destination once `f` has been copied and renamed into place, its other form not yet removed. */
  function Copied(codec: Codec, d: Files, f: PlannedFile, content: Bytes): Files {
    (d - {f.PartPath()})[f.StoredPath() := codec.Store(f.compression, content)]
  }

  /** The destination once `f` has been placed. */
  function Placed(codec: Codec, d: Files, f: PlannedFile, content: Bytes): Files {
    Copied(codec, d, f, content) - {f.OtherPath()}
  }

  datatype Progress = Progress(files: Files, result: Result<seq<SyncedFile>, Error>)

  /** The copying loop: every file in turn, up to the first that is refused. */
  function Steps(
    codec: Codec, d: Files, previous: Option<Receipt>, plan: seq<PlannedFile>, source: Files,
    written: seq<SyncedFile>): Progress
    decreases |plan|
  {
    if plan == [] then Progress(d, Ok(written))
    else if plan[0].path !in source then Progress(d, Err(Missing(plan[0].path)))
    else
      var f, content := plan[0], source[plan[0].path];
      var refusal := Guard(codec, d, previous, f.path, content);
      if refusal.Some? then Progress(d, Err(refusal.value))
      else Steps(codec, Placed(codec, d, f, content), previous, plan[1..], source, written + [f.Synced(codec, content)])
  }

  predicate Stores(written: seq<SyncedFile>, path: string) {
    exists f :: f in written && f.storedPath == path
  }

  /** The names in `previous` that `written` lacks and the destination has. */
  function LeftBehind(d: Files, previous: seq<SyncedFile>, written: seq<SyncedFile>): seq<string> {
    if previous == [] then []
    else
      var rest := LeftBehind(d, previous[1..], written);
      var path := previous[0].storedPath;
      if !Stores(written, path) && path in d then [path] + rest else rest
  }

  datatype Synced = Synced(receipt: Receipt, leftBehind: seq<string>)

  datatype Executed = Executed(files: Files, result: Result<Synced, Error>)

  /** A whole sync of one run: the destination afterwards, and what is reported. */
  function Execution(codec: Codec, d: Files, runKey: string, plan: seq<PlannedFile>, source: Files): Executed {
    match ReceiptAt(codec, d)
    case Err(e) => Executed(d, Err(e))
    case Ok(previous) =>
      var p := Steps(codec, d, previous, plan, source, []);
      match p.result
      case Err(e) => Executed(p.files, Err(e))
      case Ok(written) =>
        var earlier := if previous.None? then [] else previous.value.files;
        var generation := if previous.None? then 0 else previous.value.generation;
        var receipt := Receipt(runKey, generation + 1, written);
        Executed(p.files[RECEIPT := codec.write(receipt)], Ok(Synced(receipt, LeftBehind(p.files, earlier, written))))
  }

  // Path facts

  lemma {:induction false} ExtensionComesLater(a: string, s: string)
    requires s != []
    ensures Before(a, a + s)
  {
    if a == [] {
      assert a + s == s;
    } else {
      ExtensionComesLater(a[1..], s);
      assert (a + s)[0] == a[0] && (a + s)[1..] == a[1..] + s;
    }
  }

  /** The file name of a path can be cut at a dot that is not its first character. */
  ghost predicate CutAtDot(path: string, directory: string, stem: string, extension: string) {
    && path == directory + stem + "." + extension
    && stem != "" && '/' !in stem && '/' !in extension
    && (directory == "" || directory[|directory| - 1] == '/')
  }

  /** What counts as having an extension: a hidden file has none unless there is a second dot. */
  lemma HasExtensionIff(path: string)
    ensures HasExtension(path) <==> exists directory, stem, extension :: CutAtDot(path, directory, stem, extension)
  {
    if HasExtension(path) {
      var directory, stem, extension := ExtensionCuts(path);
    }
    if directory, stem, extension :| CutAtDot(path, directory, stem, extension) {
      CutIsExtension(path, directory, stem, extension);
    }
  }

  /** A temporary name is the name with another extension: the old one or, if there is none, "tmp"; then "part". */
  lemma PartNameExtends(stored: string)
    ensures forall directory, stem, extension | CutAtDot(stored, directory, stem, extension) ::
              PartName(stored) == directory + stem + "." + (extension + ".part")
    ensures (forall directory, stem, extension :: !CutAtDot(stored, directory, stem, extension)) ==>
              PartName(stored) == stored + "." + "tmp.part"
  {
    HasExtensionIff(stored);
    forall directory, stem, extension | CutAtDot(stored, directory, stem, extension)
      ensures PartName(stored) == directory + stem + "." + (extension + ".part")
    {
      assert directory + stem + "." + extension + ".part" == directory + stem + "." + (extension + ".part");
    }
  }

  lemma {:induction false} ExtensionCuts(path: string) returns (directory: string, stem: string, extension: string)
    requires HasExtension(path)
    ensures CutAtDot(path, directory, stem, extension)
  {
    var last := |path| - 1;
    if path[last] == '.' {
      directory, stem := FileName(path[..last]);
      extension := "";
      assert path == directory + stem + "." + "";
    } else {
      directory, stem, extension := ExtensionCuts(path[..last]);
      extension := extension + [path[last]];
      assert path == path[..last] + [path[last]];
      assert path == directory + stem + "." + extension;
    }
  }

  /** What follows the last slash of a path that does not end in one. */
  lemma {:induction false} FileName(path: string) returns (directory: string, name: string)
    requires path != [] && path[|path| - 1] != '/'
    ensures path == directory + name && name != "" && '/' !in name
    ensures directory == "" || directory[|directory| - 1] == '/'
  {
    var last := |path| - 1;
    if last == 0 || path[last - 1] == '/' {
      directory, name := path[..last], path[last..];
    } else {
      directory, name := FileName(path[..last]);
      name := name + [path[last]];
      assert path == path[..last] + [path[last]];
    }
  }

  lemma {:induction false} CutIsExtension(path: string, directory: string, stem: string, extension: string)
    requires CutAtDot(path, directory, stem, extension)
    ensures HasExtension(path)
    decreases |extension|
  {
    var last := |path| - 1;
    var head := directory + stem + ".";
    if extension == "" {
      assert path == head;
      assert path[last - 1] == stem[|stem| - 1];
    } else {
      var shorter := extension[..|extension| - 1];
      assert path[last] == extension[|extension| - 1];
      assert path[..last] == head + shorter;
      assert stem[|stem| - 1] != '/' && path[|directory + stem|] == '.';
      CutIsExtension(path[..last], directory, stem, shorter);
      if path[last] == '.' { assert path[last - 1] != '/'; }
    }
  }

  /** A name whose last two letters are those of "part". Temporary names are; compressed names are not. */
  predicate PartLike(path: string) {
    |path| >= 2 && path[|path| - 2] == 'r'
  }

  lemma PartNames(stored: string, path: string)
    ensures PartLike(PartName(stored)) && !PartLike(Zst(path))
    ensures PartName(stored) != Zst(path)
  {
  }

  lemma PartPathComesLater(f: PlannedFile)
    ensures Before(f.path, f.PartPath())
  {
    var s := if HasExtension(f.StoredPath()) then ".part" else ".tmp.part";
    var t := if f.compression.Plain? then s else ".zst" + s;
    ExtensionComesLater(f.path, t);
    assert f.PartPath() == f.path + t;
  }

  lemma ZstInjective(a: string, b: string)
    requires Zst(a) == Zst(b)
    ensures a == b
  {
    assert Zst(a)[..|a|] == a && Zst(b)[..|b|] == b;
  }
}
