/**
 The destination directory of one run as `runvault sync` changes it in place,
 file by file. Its methods are proved against the specification in `SyncSteps`.
*/
module Destination {
  import opened Wrappers
  import opened TextOrder
  import opened SyncSteps
  import PrefixCheck

  class Directory {
    const codec: Codec
    var files: Files

    constructor (codec: Codec, files: Files)
      ensures this.codec == codec && this.files == files
    {
      this.codec := codec;
      this.files := files;
    }

    /** The verdict on replacing one stored form by `content`; it looks at the destination and changes nothing. */
    method GuardRewrite(
      path: string, existing: string, compression: Compression, content: Bytes) returns (refusal: Option<Error>)
      requires existing in files
      ensures refusal == Refusal(codec, path, files[existing], compression, content)
    {
      if !AppendOnly(path) && !Immutable(path) { return None; }
      var held := codec.Load(compression, files[existing]);
      if held.None? { return Some(Unreadable(path)); }
      if AppendOnly(path) {
        var stored := new PrefixCheck.Reader(held.value);
        var source := new PrefixCheck.Reader(content);
        var isPrefix := PrefixCheck.StoredIsPrefixOf(stored, source);
        return if isPrefix then None else Some(Rewritten(path));
      }
      return if held.value == content then None else Some(Contradicts(path));
    }

    method GuardFile(previous: Option<Receipt>, path: string, content: Bytes) returns (refusal: Option<Error>)
      ensures refusal == Guard(codec, files, previous, path, content)
    {
      refusal := None;
      var entry := PreviousForm(previous, path);
      if entry.Some? && entry.value.storedPath in files {
        refusal := GuardRewrite(path, entry.value.storedPath, entry.value.compression, content);
      }
    }

    /** Writes the file under its temporary name, then renames it into place. */
    method CopyInto(f: PlannedFile, content: Bytes)
      modifies this
      ensures files == Copied(codec, old(files), f, content)
    {
      var part := f.PartPath();
      files := files[part := codec.Store(f.compression, content)];
      files := (files - {part})[f.StoredPath() := files[part]];
    }

    /** Afterwards the form `f` is not planned in is absent, and every other name is as it was. */
    method RemoveOtherForm(f: PlannedFile)
      modifies this
      ensures files == old(files) - {f.OtherPath()}
    {
      if f.OtherPath() in files {
        files := files - {f.OtherPath()};
      }
    }

    method ReadReceipt() returns (r: Result<Option<Receipt>, Error>)
      ensures r == ReceiptAt(codec, files)
    {
      if RECEIPT !in files { return Ok(None); }
      var read := codec.read(files[RECEIPT]);
      return if read.None? then Err(Unreadable(RECEIPT)) else Ok(read);
    }

    /** Places the planned files in turn, up to the first that is refused. */
    method PlaceFiles(
      previous: Option<Receipt>, plan: seq<PlannedFile>, source: Files) returns (r: Result<seq<SyncedFile>, Error>)
      modifies this
      ensures Progress(files, r) == Steps(codec, old(files), previous, plan, source, [])
    {
      var written: seq<SyncedFile> := [];
      for i := 0 to |plan|
        invariant Steps(codec, old(files), previous, plan, source, []) ==
            Steps(codec, files, previous, plan[i..], source, written)
      {
        var f := plan[i];
        assert plan[i..][0] == f && plan[i..][1..] == plan[i + 1..];
        if f.path !in source { return Err(Missing(f.path)); }
        var refusal := GuardFile(previous, f.path, source[f.path]);
        if refusal.Some? { return Err(refusal.value); }
        CopyInto(f, source[f.path]);
        RemoveOtherForm(f);
        written := written + [f.Synced(codec, source[f.path])];
      }
      r := Ok(written);
    }

    /** The destination and the report come out as `Execution` says, for every plan and every earlier state. */
    method Execute(runKey: string, plan: seq<PlannedFile>, source: Files) returns (r: Result<Synced, Error>)
      modifies this
      ensures Executed(files, r) == Execution(codec, old(files), runKey, plan, source)
    {
      var previous := ReadReceipt();
      if previous.Err? { return Err(previous.error); }
      var placed := PlaceFiles(previous.value, plan, source);
      if placed.Err? { return Err(placed.error); }
      var earlier := if previous.value.None? then [] else previous.value.value.files;
      var generation := if previous.value.None? then 0 else previous.value.value.generation;
      var leftBehind := LeftBehind(files, earlier, placed.value);
      var receipt := Receipt(runKey, generation + 1, placed.value);
      files := files[RECEIPT := codec.write(receipt)];
      r := Ok(Synced(receipt, leftBehind));
    }
  }
}
