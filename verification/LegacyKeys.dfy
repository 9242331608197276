/**
 The index key of a run older than the record format, and its way through the
 aggregation repository.

 A path is the sequence of its components. The key is built from the repository
 id and the path below `results/`; `sync` keeps that path below
 `<vault>/<repo_id>`, and the index reads the run again from there.
*/
module LegacyKeys {
  import opened Wrappers
  import opened Sequences

  // Percent encoding

  /** Replaces every occurrence of a character by a text. */
  function Replace(s: string, c: char, text: string): string {
    if s == [] then [] else (if s[0] == c then text else [s[0]]) + Replace(s[1..], c, text)
  }

  /** `%` goes first, then `:`. */
  function EncodePart(part: string): string {
    Replace(Replace(part, '%', "%25"), ':', "%3A")
  }

  function EncodeChar(c: char): string {
    if c == '%' then "%25" else if c == ':' then "%3A" else [c]
  }

  function EncodeInOnePass(part: string): string {
    if part == [] then [] else EncodeChar(part[0]) + EncodeInOnePass(part[1..])
  }

  lemma {:induction false} ReplaceAppend(a: string, b: string, c: char, text: string)
    ensures Replace(a + b, c, text) == Replace(a, c, text) + Replace(b, c, text)
  {
    if a == [] {
      assert a + b == b;
    } else {
      assert (a + b)[0] == a[0] && (a + b)[1..] == a[1..] + b;
      ReplaceAppend(a[1..], b, c, text);
    }
  }

  lemma ReplaceInChar(c: char)
    ensures Replace(if c == '%' then "%25" else [c], ':', "%3A") == EncodeChar(c)
  {
    assert Replace([], ':', "%3A") == [];
    if c == '%' {
      assert "%25"[1..] == "25" && "25"[1..] == "5" && "5"[1..] == [];
      assert Replace("5", ':', "%3A") == "5";
      assert Replace("25", ':', "%3A") == "25";
    } else {
      assert [c][1..] == [];
    }
  }

  /** The two replacements never disturb each other: they are one pass over the characters. */
  lemma {:induction false} TwoReplacementsAreOnePass(part: string)
    ensures EncodePart(part) == EncodeInOnePass(part)
  {
    if part != [] {
      var head := if part[0] == '%' then "%25" else [part[0]];
      ReplaceAppend(head, Replace(part[1..], '%', "%25"), ':', "%3A");
      ReplaceInChar(part[0]);
      TwoReplacementsAreOnePass(part[1..]);
    }
  }

  /** Reads an encoded part back. */
  function DecodePart(s: string): string {
    if s == [] then []
    else if s[0] != '%' || |s| < 3 then [s[0]] + DecodePart(s[1..])
    else [if s[..3] == "%25" then '%' else ':'] + DecodePart(s[3..])
  }

  lemma {:induction false} DecodeAfterEncode(part: string)
    ensures DecodePart(EncodeInOnePass(part)) == part
  {
    if part != [] {
      DecodeAfterEncode(part[1..]);
      var code, rest := EncodeChar(part[0]), EncodeInOnePass(part[1..]);
      assert (code + rest)[|code|..] == rest;
      if |code| == 3 { assert (code + rest)[..3] == code; }
      assert part == [part[0]] + part[1..];
    }
  }

  lemma {:induction false} EncodedHasNoColon(part: string)
    ensures ':' !in EncodeInOnePass(part)
  {
    if part != [] { EncodedHasNoColon(part[1..]); }
  }

  function RunKey(repoId: string, relpath: string): string {
    "legacy:" + EncodePart(repoId) + ":" + EncodePart(relpath)
  }

  // Splitting and joining

  function Join(parts: seq<string>): string {
    if parts == [] then "" else if |parts| == 1 then parts[0] else parts[0] + "/" + Join(parts[1..])
  }

  /** A component of a normalized path. */
  predicate Component(part: string) {
    part != "" && '/' !in part
  }

  lemma {:induction false} SplitAfterJoin(parts: seq<string>)
    requires parts != [] && forall p :: p in parts ==> Component(p)
    ensures Split(Join(parts), '/') == parts
  {
    assert Component(parts[0]);
    if |parts| == 1 {
      SplitWithout(parts[0], '/');
    } else {
      SplitAfterJoin(parts[1..]);
      SplitAtFirst(parts[0], '/', Join(parts[1..]));
      assert parts == [parts[0]] + parts[1..];
    }
  }

  // Normalizing a relative path

  /** What the components of a path may be. */
  datatype Part = Normal(name: string) | CurDir | Other

  datatype Error = NotRelative | Empty | NotBelow

  /** The NFC names of the normal components, unless something else is among them. */
  function NormalNames(nfc: string -> string, path: seq<Part>): Result<seq<string>, Error> {
    if path == [] then Ok([])
    else
      var last := |path| - 1;
      match NormalNames(nfc, path[..last])
      case Err(e) => Err(e)
      case Ok(names) =>
        match path[last]
        case Normal(name) => Ok(names + [nfc(name)])
        case CurDir => Ok(names)
        case Other => Err(NotRelative)
  }

  function NormalizeRelpath(nfc: string -> string, path: seq<Part>): Result<string, Error> {
    match NormalNames(nfc, path)
    case Err(e) => Err(e)
    case Ok(names) => if names == [] then Err(Empty) else Ok(Join(names))
  }

  method NormalizeInPlace(nfc: string -> string, path: seq<Part>) returns (r: Result<string, Error>)
    ensures r == NormalizeRelpath(nfc, path)
  {
    var parts: seq<string> := [];
    for i := 0 to |path|
      invariant NormalNames(nfc, path[..i]) == Ok(parts)
    {
      assert path[..i + 1][..i] == path[..i];
      match path[i]
      case Normal(name) => parts := parts + [nfc(name)];
      case CurDir =>
      case Other =>
        RefusalStays(nfc, path, i + 1);
        return Err(NotRelative);
    }
    assert path[..|path|] == path;
    if parts == [] { return Err(Empty); }
    r := Ok(Join(parts));
  }

  lemma {:induction false} RefusalStays(nfc: string -> string, path: seq<Part>, n: nat)
    requires n <= |path| && NormalNames(nfc, path[..n]).Err?
    ensures NormalNames(nfc, path) == NormalNames(nfc, path[..n])
    decreases |path|
  {
    if n < |path| {
      assert path[..|path| - 1][..n] == path[..n];
      RefusalStays(nfc, path[..|path| - 1], n);
    } else {
      assert path[..n] == path;
    }
  }

  /** Unicode normalization is idempotent and keeps a component a component. */
  ghost predicate Normalizes(nfc: string -> string) {
    forall s :: nfc(nfc(s)) == nfc(s) && (Component(s) ==> Component(nfc(s)))
  }

  ghost predicate WellFormed(path: seq<Part>) {
    forall p :: p in path && p.Normal? ==> Component(p.name)
  }

  lemma {:induction false} NamesAreNormal(nfc: string -> string, path: seq<Part>)
    requires Normalizes(nfc) && WellFormed(path) && NormalNames(nfc, path).Ok?
    ensures forall name :: name in NormalNames(nfc, path).value ==> Component(name) && nfc(name) == name
  {
    if path != [] {
      NamesAreNormal(nfc, path[..|path| - 1]);
      assert path[|path| - 1] in path;
    }
  }

  predicate OnlyDots(path: seq<Part>) {
    forall p :: p in path ==> p == CurDir
  }

  /** Which paths have a key: those with a name, and nothing but names and `.`. */
  lemma {:induction false} NormalizesExactlyRelative(nfc: string -> string, path: seq<Part>)
    ensures NormalNames(nfc, path).Ok? <==> Other !in path
    ensures NormalNames(nfc, path).Ok? ==> (NormalNames(nfc, path).value == [] <==> OnlyDots(path))
    ensures NormalizeRelpath(nfc, path) == Err(NotRelative) <==> Other in path
    ensures NormalizeRelpath(nfc, path) == Err(Empty) <==> OnlyDots(path)
    ensures NormalizeRelpath(nfc, path) != Err(NotBelow)
  {
    if path != [] {
      var front, last := path[..|path| - 1], path[|path| - 1];
      NormalizesExactlyRelative(nfc, front);
      assert path == front + [last];
      assert forall p :: p in path <==> p in front || p == last;
      assert last in path;
    }
  }

  function AsParts(names: seq<string>): seq<Part> {
    if names == [] then [] else AsParts(names[..|names| - 1]) + [Normal(names[|names| - 1])]
  }

  lemma {:induction false} NormalIsKept(nfc: string -> string, names: seq<string>)
    requires forall name :: name in names ==> nfc(name) == name
    ensures NormalNames(nfc, AsParts(names)) == Ok(names)
  {
    if names != [] {
      var front, last := names[..|names| - 1], names[|names| - 1];
      assert last in names && nfc(last) == last;
      NormalIsKept(nfc, front);
      var parts := AsParts(names);
      assert parts[..|parts| - 1] == AsParts(front) && parts[|parts| - 1] == Normal(last);
      assert front + [last] == names;
    }
  }

  // Through the vault

  type Path = seq<string>

  /** Where `sync` keeps a legacy run. */
  function Destination(vault: Path, repoId: string, names: seq<string>): Path {
    vault + [repoId] + names
  }

  /** What reading a legacy run says of its identity. */
  datatype Identity = Identity(runKey: string, experiment: Option<string>)

  /** The grouping directories above a run. */
  function ExperimentOf(relpath: string): Option<string> {
    var parts := Split(relpath, '/');
    if |parts| == 1 then None else Some(Join(parts[..|parts| - 1]))
  }

  /** The experiment of a run is the path of the directories above it. */
  lemma ExperimentIs(above: seq<string>, run: string)
    requires Component(run) && forall name :: name in above ==> Component(name)
    ensures ExperimentOf(Join(above + [run])) == if above == [] then None else Some(Join(above))
  {
    SplitAfterJoin(above + [run]);
    assert (above + [run])[..|above|] == above;
  }

  /** Reads the run at `dir` below `root`. */
  function ReadRun(nfc: string -> string, root: Path, repoId: string, dir: Path): Result<Identity, Error> {
    if !(root <= dir) then Err(NotBelow)
    else match NormalizeRelpath(nfc, AsParts(dir[|root|..]))
      case Err(e) => Err(e)
      case Ok(relpath) => Ok(Identity(RunKey(repoId, relpath), ExperimentOf(relpath)))
  }

  /** A directory has a key exactly if it lies below the root; outside the root and the root itself differ. */
  lemma ReadsIff(nfc: string -> string, root: Path, repoId: string, dir: Path)
    ensures ReadRun(nfc, root, repoId, dir) == Err(NotBelow) <==> !(root <= dir)
    ensures ReadRun(nfc, root, repoId, dir) == Err(Empty) <==> root == dir
    ensures ReadRun(nfc, root, repoId, dir).Ok? <==> root <= dir && root != dir
  {
    if root <= dir {
      var names := dir[|root|..];
      NamesAreParts(names);
      NormalizesExactlyRelative(nfc, AsParts(names));
    }
  }

  lemma {:induction false} NamesAreParts(names: seq<string>)
    ensures Other !in AsParts(names) && (OnlyDots(AsParts(names)) <==> names == [])
  {
    if names != [] {
      var front, last := names[..|names| - 1], names[|names| - 1];
      NamesAreParts(front);
      assert Normal(last) in AsParts(front) + [Normal(last)];
    }
  }

  /** How many directories the key says lie between the run and its root. */
  function Depth(runKey: string): nat {
    var pieces := Split(runKey, ':');
    |Split(pieces[|pieces| - 1], '/')|
  }

  /** Drops as many components as the path in the key has, or all there are. */
  method ResultsRootOf(dir: Path, runKey: string) returns (root: Path)
    ensures root == dir[..if Depth(runKey) <= |dir| then |dir| - Depth(runKey) else 0]
  {
    root := dir;
    for i := 0 to Depth(runKey)
      invariant root == dir[..if i <= |dir| then |dir| - i else 0]
    {
      if root != [] { root := root[..|root| - 1]; }
    }
  }

  lemma {:induction false} EncodingKeepsSlashes(rel: string)
    ensures |Split(EncodeInOnePass(rel), '/')| == |Split(rel, '/')|
  {
    if rel != [] {
      EncodingKeepsSlashes(rel[1..]);
      PrefixWithoutSlash(EncodeChar(rel[0]), EncodeInOnePass(rel[1..]), rel[0] == '/');
    }
  }

  lemma {:induction false} PrefixWithoutSlash(a: string, rest: string, slash: bool)
    requires if slash then a == "/" else '/' !in a
    ensures |Split(a + rest, '/')| == |Split(rest, '/')| + if slash then 1 else 0
  {
    if a == [] {
      assert a + rest == rest;
    } else {
      assert (a + rest)[0] == a[0] && (a + rest)[1..] == a[1..] + rest;
      PrefixWithoutSlash(a[1..], rest, false);
    }
  }

  lemma KeyText(e: string, f: string)
    ensures "legacy:" + e + ":" + f == "legacy" + [':'] + (e + [':'] + f)
  {
    assert "legacy:" == "legacy" + [':'];
  }

  lemma KeyPieces(repo: string, rel: string)
    ensures Split(RunKey(repo, rel), ':') == ["legacy", EncodePart(repo), EncodePart(rel)]
  {
    TwoReplacementsAreOnePass(repo);
    TwoReplacementsAreOnePass(rel);
    EncodedHasNoColon(repo);
    EncodedHasNoColon(rel);
    KeyText(EncodePart(repo), EncodePart(rel));
    SplitAtFirst("legacy", ':', EncodePart(repo) + [':'] + EncodePart(rel));
    SplitAtFirst(EncodePart(repo), ':', EncodePart(rel));
    SplitWithout(EncodePart(rel), ':');
    assert ["legacy"] + ([EncodePart(repo)] + [EncodePart(rel)]) == ["legacy", EncodePart(repo), EncodePart(rel)];
  }

  /** The key says which repository and which path it was built from. */
  lemma RunKeyInjective(repo: string, rel: string, repo2: string, rel2: string)
    ensures RunKey(repo, rel) == RunKey(repo2, rel2) <==> repo == repo2 && rel == rel2
  {
    if RunKey(repo, rel) == RunKey(repo2, rel2) {
      KeyPieces(repo, rel);
      KeyPieces(repo2, rel2);
      var pieces := Split(RunKey(repo, rel), ':');
      assert pieces[1] == EncodePart(repo) == EncodePart(repo2);
      assert pieces[2] == EncodePart(rel) == EncodePart(rel2);
      EncodePartInjective(repo, repo2);
      EncodePartInjective(rel, rel2);
    }
  }

  lemma EncodePartInjective(a: string, b: string)
    requires EncodePart(a) == EncodePart(b)
    ensures a == b
  {
    TwoReplacementsAreOnePass(a);
    TwoReplacementsAreOnePass(b);
    DecodeAfterEncode(a);
    DecodeAfterEncode(b);
  }

  ghost predicate NormalPath(nfc: string -> string, names: seq<string>) {
    names != [] && forall name :: name in names ==> Component(name) && nfc(name) == name
  }

  /** The depth in the key is the depth of the run below `<vault>/<repo_id>`, so the climb ends exactly there. */
  lemma ClimbEndsAtTheRepository(nfc: string -> string, vault: Path, repo: string, names: seq<string>)
    requires NormalPath(nfc, names)
    ensures var dir, key := Destination(vault, repo, names), RunKey(repo, Join(names));
            Depth(key) == |names| && dir[..|dir| - Depth(key)] == vault + [repo]
  {
    KeyPieces(repo, Join(names));
    TwoReplacementsAreOnePass(Join(names));
    EncodingKeepsSlashes(Join(names));
    SplitAfterJoin(names);
  }

  /**
   Read again from the directory it was kept in, an uncompressed run has the key and experiment of
   its normalized path.
  */
  lemma UncompressedKeepsItsIdentity(nfc: string -> string, vault: Path, repo: string, names: seq<string>)
    requires NormalPath(nfc, names)
    ensures ReadRun(nfc, vault + [repo], repo, Destination(vault, repo, names)) ==
        Ok(Identity(RunKey(repo, Join(names)), ExperimentOf(Join(names))))
  {
    assert Destination(vault, repo, names)[|vault + [repo]|..] == names;
    NormalIsKept(nfc, names);
  }

  /**
   Reads a run out of the vault; one with a compressed file is first expanded below a temporary
   directory, under its own name.
  */
  function ReadFromVault(
    nfc: string -> string, compressed: bool, temporary: Path, repoId: string, dir: Path,
    runKey: string): Result<Identity, Error>
    requires dir != [] && Depth(runKey) <= |dir|
  {
    if compressed then ReadRun(nfc, temporary, repoId, temporary + [Last(dir)])
    else ReadRun(nfc, dir[..|dir| - Depth(runKey)], repoId, dir)
  }

  lemma ExpandedIdentity(nfc: string -> string, temporary: Path, repo: string, name: string)
    requires nfc(name) == name
    ensures ReadRun(nfc, temporary, repo, temporary + [name]) ==
        Ok(Identity(RunKey(repo, Join([name])), ExperimentOf(Join([name]))))
  {
    assert (temporary + [name])[|temporary|..] == [name];
    NormalIsKept(nfc, [name]);
  }

  lemma LastComponentDiffers(repo: string, names: seq<string>)
    requires names != [] && forall name :: name in names ==> Component(name)
    ensures RunKey(repo, Join([Last(names)])) == RunKey(repo, Join(names)) <==> |names| == 1
    ensures ExperimentOf(Join([Last(names)])) == ExperimentOf(Join(names)) <==> |names| == 1
  {
    var last := [Last(names)];
    assert Last(names) in names;
    SplitAfterJoin(names);
    SplitAfterJoin(last);
    RunKeyInjective(repo, Join(last), repo, Join(names));
    if |names| == 1 { assert names == last; }
  }

  /** The normalized names of the directories between `results/` and a run. */
  ghost predicate NamesOf(nfc: string -> string, raw: seq<string>, names: seq<string>) {
    raw != [] && (forall name :: name in raw ==> Component(name)) && NormalNames(nfc, AsParts(raw)) == Ok(names)
  }

  lemma {:induction false} PartsOfNames(nfc: string -> string, raw: seq<string>)
    ensures |AsParts(raw)| == |raw| && forall i :: 0 <= i < |raw| ==> AsParts(raw)[i] == Normal(raw[i])
    ensures NormalNames(nfc, AsParts(raw)).Ok? && |NormalNames(nfc, AsParts(raw)).value| == |raw|
  {
    if raw != [] {
      PartsOfNames(nfc, raw[..|raw| - 1]);
      assert AsParts(raw)[..|AsParts(raw)| - 1] == AsParts(raw[..|raw| - 1]);
    }
  }

  lemma NamesAreANormalPath(nfc: string -> string, raw: seq<string>, names: seq<string>)
    requires Normalizes(nfc) && NamesOf(nfc, raw, names)
    ensures NormalPath(nfc, names) && |names| == |raw|
  {
    PartsOfNames(nfc, raw);
    NamesAreNormal(nfc, AsParts(raw));
  }

  /** What the run is at its source. */
  lemma SourceIdentity(nfc: string -> string, results: Path, repo: string, raw: seq<string>, names: seq<string>)
    requires Normalizes(nfc) && NamesOf(nfc, raw, names)
    ensures ReadRun(nfc, results, repo, results + raw) ==
        Ok(Identity(RunKey(repo, Join(names)), ExperimentOf(Join(names))))
  {
    NamesAreANormalPath(nfc, raw, names);
    assert (results + raw)[|results|..] == raw;
  }

  /**
   Read again from the vault, a run has the key and the experiment it had at the
   source exactly when it was stored without compression or lay directly below
   `results/`. The temporary directory of a compressed run keeps only the last
   component of its path.
  */
  lemma VaultKeepsIdentityIff(nfc: string -> string, results: Path, vault: Path, temporary: Path, repo: string,
                              raw: seq<string>, names: seq<string>, compressed: bool)
    requires Normalizes(nfc) && NamesOf(nfc, raw, names)
    ensures ReadRun(nfc, results, repo, results + raw).Ok?
    ensures var first := ReadRun(nfc, results, repo, results + raw).value;
            var dir := Destination(vault, repo, names);
            && Depth(first.runKey) <= |dir|
            && ReadFromVault(nfc, compressed, temporary, repo, dir, first.runKey).Ok?
            && (ReadFromVault(nfc, compressed, temporary, repo, dir, first.runKey).value == first <==>
                !compressed || |raw| == 1)
            && (ReadFromVault(nfc, compressed, temporary, repo, dir, first.runKey).value.experiment == first.experiment
                <==> !compressed || |raw| == 1)
  {
    NamesAreANormalPath(nfc, raw, names);
    SourceIdentity(nfc, results, repo, raw, names);
    UncompressedKeepsItsIdentity(nfc, vault, repo, names);
    ClimbEndsAtTheRepository(nfc, vault, repo, names);
    assert Last(Destination(vault, repo, names)) == Last(names) && Last(names) in names;
    ExpandedIdentity(nfc, temporary, repo, Last(names));
    LastComponentDiffers(repo, names);
  }
}
