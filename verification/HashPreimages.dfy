/**
 The byte strings the three stacked hashes are taken of.

 Digests stay opaque: everything is said about the preimages. Each preimage
 decodes uniquely, so two runs share one exactly when they agree on every input,
 a missing field and an empty one being the same input.
*/
module HashPreimages {
  import opened Wrappers
  import opened Decimal
  import opened TextOrder
  import opened Framing
  import opened KeyedSort
  import opened Sequences

  datatype Algorithm = Blake3 | Sha256
  datatype HashScope = File | DirManifest
  datatype LockKind = Cargo | Uv | Poetry | Pip | Other

  datatype Hash = Hash(algorithm: Algorithm, value: string)

  datatype Lock = Lock(kind: LockKind, hash: Hash, file: string)

  datatype Code = Code(gitCommit: string, gitDirty: bool, dirtyHash: Option<Hash>)

  datatype Dataset = Dataset(
    role: string, name: string, datasetId: Option<string>, version: Option<string>, hash: Option<Hash>,
    hashScope: Option<HashScope>, n: Option<nat>, uri: Option<string>, split: Option<string>)

  function AlgorithmStr(a: Algorithm): string {
    match a case Blake3 => "blake3" case Sha256 => "sha256"
  }

  function HashScopeStr(s: Option<HashScope>): string {
    match s case None => "" case Some(File) => "file" case Some(DirManifest) => "dir_manifest"
  }

  function KindStr(k: LockKind): string {
    match k
    case Cargo => "cargo"
    case Uv => "uv"
    case Poetry => "poetry"
    case Pip => "pip"
    case Other => "other"
  }

  /** A missing text and an empty one are the same hash input. */
  function OrEmpty(t: Option<string>): string {
    match t case Some(s) => s case None => ""
  }

  // -------------------------------------------------------------------------
  // Lists of texts as lists of inputs
  // -------------------------------------------------------------------------

  function Encoded(ts: seq<string>): seq<Bytes> {
    if ts == [] then [] else Encoded(Front(ts)) + [Utf8(Last(ts))]
  }

  lemma {:induction false} EncodedInjective(a: seq<string>, b: seq<string>)
    requires Encoded(a) == Encoded(b)
    ensures a == b
    decreases |a|
  {
    if a != [] && b != [] {
      assert Front(Encoded(a)) == Encoded(Front(a)) && Last(Encoded(a)) == Utf8(Last(a));
      assert Front(Encoded(b)) == Encoded(Front(b)) && Last(Encoded(b)) == Utf8(Last(b));
      EncodedInjective(Front(a), Front(b));
      Utf8Injective(Last(a), Last(b));
      assert a == Front(a) + [Last(a)] && b == Front(b) + [Last(b)];
    }
  }

  lemma {:induction false} EncodedConcat(a: seq<string>, b: seq<string>)
    ensures Encoded(a + b) == Encoded(a) + Encoded(b)
    decreases |b|
  {
    if b == [] {
      assert a + b == a;
    } else {
      assert Front(a + b) == a + Front(b) && Last(a + b) == Last(b);
      EncodedConcat(a, Front(b));
    }
  }

  /** The framed texts of a list of texts. */
  function Frames(ts: seq<string>): Bytes {
    Join(Encoded(ts))
  }

  lemma FramesInjective(a: seq<string>, b: seq<string>)
    requires Frames(a) == Frames(b)
    ensures a == b
  {
    JoinInjective(Encoded(a), Encoded(b));
    EncodedInjective(a, b);
  }

  lemma FramesConcat(a: seq<string>, b: seq<string>)
    ensures Frames(a + b) == Frames(a) + Frames(b)
  {
    EncodedConcat(a, b);
    JoinConcat(Encoded(a), Encoded(b));
  }

  lemma OneMoreFrame(ts: seq<string>, i: nat)
    requires i < |ts|
    ensures Frames(ts[..i + 1]) == Frames(ts[..i]) + Join([Utf8(ts[i])])
  {
    assert Front(ts[..i + 1]) == ts[..i];
    JoinConcat(Encoded(ts[..i]), [Utf8(ts[i])]);
  }

  /** Appends each text behind its byte length. */
  method PushTexts(blob: Blob, ts: seq<string>)
    modifies blob
    ensures blob.bytes == old(blob.bytes) + Frames(ts)
  {
    assert blob.bytes + [] == blob.bytes;
    for i := 0 to |ts|
      invariant blob.bytes == old(blob.bytes) + Frames(ts[..i])
    {
      blob.PushLp(Utf8(ts[i]));
      OneMoreFrame(ts, i);
    }
    assert ts[..|ts|] == ts;
  }

  /** The texts of all records, in a row. */
  function Flatten<T>(xs: seq<T>, texts: T -> seq<string>): seq<string> {
    if xs == [] then [] else Flatten(Front(xs), texts) + texts(Last(xs))
  }

  /** Records of a fixed number of texts can be told apart again. */
  lemma {:induction false} FlattenInjective<T>(a: seq<T>, b: seq<T>, texts: T -> seq<string>, width: nat)
    requires width > 0 && forall x :: |texts(x)| == width
    requires Flatten(a, texts) == Flatten(b, texts)
    ensures |a| == |b| && forall i :: 0 <= i < |a| ==> texts(a[i]) == texts(b[i])
    decreases |a|
  {
    if a == [] || b == [] {
    } else {
      var fa, fb := Flatten(Front(a), texts), Flatten(Front(b), texts);
      assert Flatten(a, texts)[|fa|..] == texts(Last(a)) && Flatten(a, texts)[..|fa|] == fa;
      assert Flatten(b, texts)[|fb|..] == texts(Last(b)) && Flatten(b, texts)[..|fb|] == fb;
      FlattenInjective(Front(a), Front(b), texts, width);
      forall i | 0 <= i < |a|
        ensures texts(a[i]) == texts(b[i])
      {
        if i < |a| - 1 { assert a[i] == Front(a)[i] && b[i] == Front(b)[i]; }
      }
    }
  }

  lemma {:induction false} FlattenSame<T>(a: seq<T>, b: seq<T>, texts: T -> seq<string>)
    requires |a| == |b| && forall i :: 0 <= i < |a| ==> texts(a[i]) == texts(b[i])
    ensures Flatten(a, texts) == Flatten(b, texts)
    decreases |a|
  {
    if a != [] { FlattenSame(Front(a), Front(b), texts); }
  }

  // -------------------------------------------------------------------------
  // The data a run used
  // -------------------------------------------------------------------------

  function DatasetKey(d: Dataset): Key {
    (d.role, d.name)
  }

  /** The ten inputs of one dataset. */
  function DatasetTexts(d: Dataset): seq<string> {
    [ d.role, d.name, OrEmpty(d.datasetId), OrEmpty(d.version), OrEmpty(d.split),
      if d.hash.Some? then AlgorithmStr(d.hash.value.algorithm) else "",
      if d.hash.Some? then d.hash.value.value else "",
      HashScopeStr(d.hashScope), OrEmpty(d.uri),
      if d.n.Some? then Numeral(d.n.value) else "" ]
  }

  /** Two records that are the same input: a missing text and an empty one are not told apart. */
  predicate SameDataset(d: Dataset, e: Dataset) {
    && d.role == e.role && d.name == e.name
    && OrEmpty(d.datasetId) == OrEmpty(e.datasetId) && OrEmpty(d.version) == OrEmpty(e.version)
    && OrEmpty(d.split) == OrEmpty(e.split) && OrEmpty(d.uri) == OrEmpty(e.uri)
    && d.hash == e.hash && d.hashScope == e.hashScope && d.n == e.n
  }

  lemma TextsTellDatasetsApart(d: Dataset, e: Dataset)
    ensures DatasetTexts(d) == DatasetTexts(e) <==> SameDataset(d, e)
  {
    if DatasetTexts(d) == DatasetTexts(e) {
      var a, b := DatasetTexts(d), DatasetTexts(e);
      assert a[0] == b[0] && a[1] == b[1] && a[2] == b[2] && a[3] == b[3] && a[4] == b[4];
      assert a[5] == b[5] && a[6] == b[6] && a[8] == b[8];
      assert d.hash == e.hash;
      assert d.hashScope == e.hashScope by { assert a[7] == b[7]; ScopeStrInjective(d.hashScope, e.hashScope); }
      assert a[9] == b[9];
      if d.n.Some? && e.n.Some? { NumeralInjective(d.n.value, e.n.value); }
    }
  }

  lemma ScopeStrInjective(a: Option<HashScope>, b: Option<HashScope>)
    requires HashScopeStr(a) == HashScopeStr(b)
    ensures a == b
  {
    assert |"file"| == 4 && |"dir_manifest"| == 12;
  }

  function DataIdentity(data: seq<Dataset>): Bytes {
    Frames(Flatten(StableSort(data, DatasetKey), DatasetTexts))
  }

  /** The identity of the data, as it is built: sort by (role, name), then append ten inputs each. */
  method BuildDataIdentity(data: seq<Dataset>) returns (bytes: Bytes)
    ensures bytes == DataIdentity(data)
  {
    var sorted := StableSort(data, DatasetKey);
    var blob := new Blob();
    for i := 0 to |sorted|
      invariant fresh(blob)
      invariant blob.bytes == Frames(Flatten(sorted[..i], DatasetTexts))
    {
      PushTexts(blob, DatasetTexts(sorted[i]));
      FlattenStep(sorted, DatasetTexts, i);
      FramesConcat(Flatten(sorted[..i], DatasetTexts), DatasetTexts(sorted[i]));
    }
    assert sorted[..|sorted|] == sorted;
    return blob.bytes;
  }

  lemma FlattenStep<T>(xs: seq<T>, texts: T -> seq<string>, i: nat)
    requires i < |xs|
    ensures Flatten(xs[..i + 1], texts) == Flatten(xs[..i], texts) + texts(xs[i])
  {
    assert Front(xs[..i + 1]) == xs[..i];
  }

  ghost predicate SameData(a: seq<Dataset>, b: seq<Dataset>) {
    var s, t := StableSort(a, DatasetKey), StableSort(b, DatasetKey);
    |s| == |t| && forall i :: 0 <= i < |s| ==> SameDataset(s[i], t[i])
  }

  /** Two lists of datasets have the same identity exactly when, sorted, they agree record by record. */
  lemma DataIdentityDecodes(a: seq<Dataset>, b: seq<Dataset>)
    ensures DataIdentity(a) == DataIdentity(b) <==> SameData(a, b)
  {
    var s, t := StableSort(a, DatasetKey), StableSort(b, DatasetKey);
    if DataIdentity(a) == DataIdentity(b) {
      FramesInjective(Flatten(s, DatasetTexts), Flatten(t, DatasetTexts));
      FlattenInjective(s, t, DatasetTexts, 10);
      forall i | 0 <= i < |s|
        ensures SameDataset(s[i], t[i])
      {
        assert DatasetTexts(s[i]) == DatasetTexts(t[i]);
        TextsTellDatasetsApart(s[i], t[i]);
      }
    }
    if SameData(a, b) {
      forall i | 0 <= i < |s|
        ensures DatasetTexts(s[i]) == DatasetTexts(t[i])
      {
        TextsTellDatasetsApart(s[i], t[i]);
      }
      FlattenSame(s, t, DatasetTexts);
    }
  }

  lemma SingletonSort<T>(x: T, key: T -> Key)
    ensures StableSort([x], key) == [x]
  {
    assert Front([x]) == [] && StableSort<T>([], key) == [];
  }

  /** The design text says a missing field and an empty one stay distinguishable. In the hash they do not. */
  lemma AbsentAndEmptyShareAnIdentity()
    ensures exists d: Dataset, e: Dataset :: d.version != e.version && DataIdentity([d]) == DataIdentity([e])
  {
    var d := Dataset("eval", "mnist", None, None, None, None, None, None, None);
    var e := d.(version := Some(""));
    SingletonSort(d, DatasetKey);
    SingletonSort(e, DatasetKey);
    DataIdentityDecodes([d], [e]);
  }

  // -------------------------------------------------------------------------
  // The condition
  // -------------------------------------------------------------------------

  function ConfigPreimage(canonical: string, data: seq<Dataset>): Bytes {
    Join([Utf8(canonical), DataIdentity(data)])
  }

  method BuildConfigPreimage(canonical: string, data: seq<Dataset>) returns (bytes: Bytes)
    ensures bytes == ConfigPreimage(canonical, data)
  {
    var identity := BuildDataIdentity(data);
    bytes := JoinLp([Utf8(canonical), identity]);
  }

  /** Same condition: the same canonical parameters and the same data. */
  lemma ConfigPreimageDecodes(c: string, data: seq<Dataset>, c': string, data': seq<Dataset>)
    ensures ConfigPreimage(c, data) == ConfigPreimage(c', data') <==> c == c' && SameData(data, data')
  {
    var x, y := [Utf8(c), DataIdentity(data)], [Utf8(c'), DataIdentity(data')];
    DataIdentityDecodes(data, data');
    if ConfigPreimage(c, data) == ConfigPreimage(c', data') {
      JoinInjective(x, y);
      assert x[0] == y[0] && x[1] == y[1];
      Utf8Injective(c, c');
    }
  }

  // -------------------------------------------------------------------------
  // The environment
  // -------------------------------------------------------------------------

  datatype Env = Env(os: string, arch: string, rustc: Option<string>, python: Option<string>, locks: seq<Lock>)

  function LockKey(l: Lock): Key {
    (KindStr(l.kind), l.file)
  }

  function LockTexts(l: Lock): seq<string> {
    [KindStr(l.kind), l.file, AlgorithmStr(l.hash.algorithm), l.hash.value]
  }

  function EnvPreimage(env: Env): Bytes {
    Join([ Utf8(env.os), Utf8(env.arch), Utf8(OrEmpty(env.rustc)), Utf8(OrEmpty(env.python)),
           Frames(Flatten(StableSort(env.locks, LockKey), LockTexts)) ])
  }

  method BuildEnvPreimage(env: Env) returns (bytes: Bytes)
    ensures bytes == EnvPreimage(env)
  {
    var sorted := StableSort(env.locks, LockKey);
    var blob := new Blob();
    for i := 0 to |sorted|
      invariant fresh(blob)
      invariant blob.bytes == Frames(Flatten(sorted[..i], LockTexts))
    {
      PushTexts(blob, LockTexts(sorted[i]));
      FlattenStep(sorted, LockTexts, i);
      FramesConcat(Flatten(sorted[..i], LockTexts), LockTexts(sorted[i]));
    }
    assert sorted[..|sorted|] == sorted;
    bytes := JoinLp([Utf8(env.os), Utf8(env.arch), Utf8(OrEmpty(env.rustc)), Utf8(OrEmpty(env.python)), blob.bytes]);
  }

  /** Same environment: the five inputs agree, the lock files as a sorted list. */
  lemma EnvPreimageDecodes(a: Env, b: Env)
    ensures EnvPreimage(a) == EnvPreimage(b) <==>
      && a.os == b.os && a.arch == b.arch
      && OrEmpty(a.rustc) == OrEmpty(b.rustc) && OrEmpty(a.python) == OrEmpty(b.python)
      && StableSort(a.locks, LockKey) == StableSort(b.locks, LockKey)
  {
    if EnvPreimage(a) == EnvPreimage(b) {
      var s, t := StableSort(a.locks, LockKey), StableSort(b.locks, LockKey);
      var x := [Utf8(a.os), Utf8(a.arch), Utf8(OrEmpty(a.rustc)), Utf8(OrEmpty(a.python)),
          Frames(Flatten(s, LockTexts))];
      var y := [Utf8(b.os), Utf8(b.arch), Utf8(OrEmpty(b.rustc)), Utf8(OrEmpty(b.python)),
          Frames(Flatten(t, LockTexts))];
      JoinInjective(x, y);
      assert x[0] == y[0] && x[1] == y[1] && x[2] == y[2] && x[3] == y[3] && x[4] == y[4];
      Utf8Injective(a.os, b.os);
      Utf8Injective(a.arch, b.arch);
      Utf8Injective(OrEmpty(a.rustc), OrEmpty(b.rustc));
      Utf8Injective(OrEmpty(a.python), OrEmpty(b.python));
      LocksDecode(s, t);
    }
  }

  lemma LocksDecode(s: seq<Lock>, t: seq<Lock>)
    requires Frames(Flatten(s, LockTexts)) == Frames(Flatten(t, LockTexts))
    ensures s == t
  {
    FramesInjective(Flatten(s, LockTexts), Flatten(t, LockTexts));
    FlattenInjective(s, t, LockTexts, 4);
    forall i | 0 <= i < |s|
      ensures s[i] == t[i]
    {
      assert LockTexts(s[i]) == LockTexts(t[i]);
    }
  }

  // -------------------------------------------------------------------------
  // The execution
  // -------------------------------------------------------------------------

  /** A seed: the pointer as written, and the canonical form of the value it names. */
  type Seed = (string, string)

  function SeedKey(s: Seed): Key {
    (s.0, "")
  }

  function SeedTexts(s: Seed): seq<string> {
    [s.0, s.1]
  }

  function SeedBlob(seeds: seq<Seed>): Bytes {
    Frames(Flatten(StableSort(seeds, SeedKey), SeedTexts))
  }

  /** The three inputs of the code; a run without code keeps them, at zero length. */
  function CodeTexts(code: Option<Code>): seq<string> {
    match code
    case Some(c) =>
      [ c.gitCommit, if c.gitDirty then "true" else "false",
        if c.dirtyHash.Some? then c.dirtyHash.value.value else "" ]
    case None => ["", "", ""]
  }

  predicate SameCode(a: Option<Code>, b: Option<Code>) {
    match (a, b)
    case (None, None) => true
    case (Some(c), Some(d)) => c.gitCommit == d.gitCommit && c.gitDirty == d.gitDirty && DirtyValue(c) == DirtyValue(d)
    case _ => false
  }

  function DirtyValue(c: Code): string {
    if c.dirtyHash.Some? then c.dirtyHash.value.value else ""
  }

  function ExecutionInputs(configHash: string, seeds: seq<Seed>, code: Option<Code>, envHash: string): seq<Bytes> {
    [Utf8(configHash), SeedBlob(seeds)] + Encoded(CodeTexts(code)) + [Utf8(envHash)]
  }

  function ExecutionPreimage(configHash: string, seeds: seq<Seed>, code: Option<Code>, envHash: string): Bytes {
    Join(ExecutionInputs(configHash, seeds, code, envHash))
  }

  method BuildExecutionPreimage(configHash: string, seeds: seq<Seed>, code: Option<Code>, envHash: string)
    returns (bytes: Bytes)
    ensures bytes == ExecutionPreimage(configHash, seeds, code, envHash)
  {
    var sorted := StableSort(seeds, SeedKey);
    var blob := new Blob();
    for i := 0 to |sorted|
      invariant fresh(blob)
      invariant blob.bytes == Frames(Flatten(sorted[..i], SeedTexts))
    {
      PushTexts(blob, SeedTexts(sorted[i]));
      FlattenStep(sorted, SeedTexts, i);
      FramesConcat(Flatten(sorted[..i], SeedTexts), SeedTexts(sorted[i]));
    }
    assert sorted[..|sorted|] == sorted;
    bytes := JoinLp([Utf8(configHash), blob.bytes] + Encoded(CodeTexts(code)) + [Utf8(envHash)]);
  }

  lemma {:induction false} EncodedLength(ts: seq<string>)
    ensures |Encoded(ts)| == |ts|
    decreases |ts|
  {
    if ts != [] { EncodedLength(Front(ts)); }
  }

  lemma ExecutionInputsDecode(c: string, seeds: seq<Seed>, code: Option<Code>, e: string,
                              c': string, seeds': seq<Seed>, code': Option<Code>, e': string)
    requires ExecutionInputs(c, seeds, code, e) == ExecutionInputs(c', seeds', code', e')
    ensures Utf8(c) == Utf8(c') && SeedBlob(seeds) == SeedBlob(seeds') && Utf8(e) == Utf8(e')
    ensures Encoded(CodeTexts(code)) == Encoded(CodeTexts(code'))
  {
    var x, y := ExecutionInputs(c, seeds, code, e), ExecutionInputs(c', seeds', code', e');
    EncodedLength(CodeTexts(code));
    EncodedLength(CodeTexts(code'));
    assert |CodeTexts(code)| == |CodeTexts(code')| == 3;
    assert x[0] == y[0] && x[1] == y[1] && x[5] == y[5];
    assert x[2..5] == Encoded(CodeTexts(code)) && y[2..5] == Encoded(CodeTexts(code'));
  }

  lemma SeedsDecode(a: seq<Seed>, b: seq<Seed>)
    requires SeedBlob(a) == SeedBlob(b)
    ensures StableSort(a, SeedKey) == StableSort(b, SeedKey)
  {
    var s, t := StableSort(a, SeedKey), StableSort(b, SeedKey);
    FramesInjective(Flatten(s, SeedTexts), Flatten(t, SeedTexts));
    FlattenInjective(s, t, SeedTexts, 2);
    forall i | 0 <= i < |s|
      ensures s[i] == t[i]
    {
      var x, y := SeedTexts(s[i]), SeedTexts(t[i]);
      assert x[0] == y[0] && x[1] == y[1];
    }
  }

  /**
   Same execution: condition, seeds, code and environment agree. In particular a run without code
   never matches one with code.
  */
  lemma ExecutionPreimageDecodes(c: string, seeds: seq<Seed>, code: Option<Code>, e: string,
                                 c': string, seeds': seq<Seed>, code': Option<Code>, e': string)
    ensures ExecutionPreimage(c, seeds, code, e) == ExecutionPreimage(c', seeds', code', e') <==>
      && c == c' && StableSort(seeds, SeedKey) == StableSort(seeds', SeedKey)
      && SameCode(code, code') && e == e'
  {
    if ExecutionPreimage(c, seeds, code, e) == ExecutionPreimage(c', seeds', code', e') {
      JoinInjective(ExecutionInputs(c, seeds, code, e), ExecutionInputs(c', seeds', code', e'));
      ExecutionInputsDecode(c, seeds, code, e, c', seeds', code', e');
      Utf8Injective(c, c');
      Utf8Injective(e, e');
      EncodedInjective(CodeTexts(code), CodeTexts(code'));
      SeedsDecode(seeds, seeds');
    }
  }

  // -------------------------------------------------------------------------
  // The order in which things are listed
  // -------------------------------------------------------------------------

  function RecordKey(texts: seq<string>): Key {
    if |texts| >= 2 then (texts[0], texts[1]) else ("", "")
  }

  function Mapped<T, U>(xs: seq<T>, f: T -> U): seq<U> {
    if xs == [] then [] else Mapped(Front(xs), f) + [f(Last(xs))]
  }

  lemma {:induction false} InsertCommutes<T, U>(sorted: seq<T>, x: T, f: T -> U, key: T -> Key, key': U -> Key)
    requires forall y :: key'(f(y)) == key(y)
    ensures Mapped(Insert(sorted, x, key), f) == Insert(Mapped(sorted, f), f(x), key')
    decreases |sorted|
  {
    assert sorted != [] ==>
      key'(f(Last(sorted))) == key(Last(sorted)) && Front(Mapped(sorted, f)) == Mapped(Front(sorted), f);
    if sorted == [] || !KeyBefore(key(x), key(Last(sorted))) {
      assert Front(sorted + [x]) == sorted;
    } else {
      var inner := Insert(Front(sorted), x, key);
      InsertCommutes(Front(sorted), x, f, key, key');
      assert Front(inner + [Last(sorted)]) == inner;
    }
  }

  lemma {:induction false} SortCommutes<T, U>(xs: seq<T>, f: T -> U, key: T -> Key, key': U -> Key)
    requires forall y :: key'(f(y)) == key(y)
    ensures Mapped(StableSort(xs, key), f) == StableSort(Mapped(xs, f), key')
    decreases |xs|
  {
    if xs != [] {
      SortCommutes(Front(xs), f, key, key');
      InsertCommutes(StableSort(Front(xs), key), Last(xs), f, key, key');
      assert Front(Mapped(xs, f)) == Mapped(Front(xs), f);
    }
  }

  /** Whatever order the datasets are listed in, the identity is the same. */
  ghost predicate ListingOrderFree(data: seq<Dataset>) {
    forall other: seq<Dataset> :: multiset(other) == multiset(data) ==> DataIdentity(other) == DataIdentity(data)
  }

  /** Datasets that share role and name are the same input. */
  ghost predicate RoleAndNameIdentify(data: seq<Dataset>) {
    forall i, j :: 0 <= i < |data| && 0 <= j < |data| && DatasetKey(data[i]) == DatasetKey(data[j]) ==>
      SameDataset(data[i], data[j])
  }

  lemma {:induction false} MappedAt<T, U>(xs: seq<T>, f: T -> U)
    ensures |Mapped(xs, f)| == |xs| && forall i :: 0 <= i < |xs| ==> Mapped(xs, f)[i] == f(xs[i])
    decreases |xs|
  {
    if xs != [] { MappedAt(Front(xs), f); }
  }

  lemma FlattenDecides<T>(s: seq<T>, t: seq<T>, texts: T -> seq<string>, width: nat)
    requires width > 0 && forall x :: |texts(x)| == width
    ensures Flatten(s, texts) == Flatten(t, texts) <==> Mapped(s, texts) == Mapped(t, texts)
  {
    MappedAt(s, texts);
    MappedAt(t, texts);
    if Mapped(s, texts) == Mapped(t, texts) {
      forall i | 0 <= i < |s|
        ensures texts(s[i]) == texts(t[i])
      {
        assert Mapped(s, texts)[i] == Mapped(t, texts)[i];
      }
      FlattenSame(s, t, texts);
    }
    if Flatten(s, texts) == Flatten(t, texts) {
      FlattenInjective(s, t, texts, width);
    }
  }

  lemma SortedTexts(data: seq<Dataset>)
    ensures Mapped(StableSort(data, DatasetKey), DatasetTexts) == StableSort(Mapped(data, DatasetTexts), RecordKey)
  {
    forall d: Dataset
      ensures RecordKey(DatasetTexts(d)) == DatasetKey(d)
    {
    }
    SortCommutes(data, DatasetTexts, DatasetKey, RecordKey);
  }

  /** The identity only depends on the sorted texts. */
  lemma IdentityOfTexts(a: seq<Dataset>, b: seq<Dataset>)
    ensures DataIdentity(a) == DataIdentity(b) <==>
      StableSort(Mapped(a, DatasetTexts), RecordKey) == StableSort(Mapped(b, DatasetTexts), RecordKey)
  {
    var s, t := StableSort(a, DatasetKey), StableSort(b, DatasetKey);
    SortedTexts(a);
    SortedTexts(b);
    FlattenDecides(s, t, DatasetTexts, 10);
    if DataIdentity(a) == DataIdentity(b) {
      FramesInjective(Flatten(s, DatasetTexts), Flatten(t, DatasetTexts));
    }
  }

  lemma {:induction false} MappedConcat<T, U>(a: seq<T>, b: seq<T>, f: T -> U)
    ensures Mapped(a + b, f) == Mapped(a, f) + Mapped(b, f)
    decreases |b|
  {
    if b == [] {
      assert a + b == a;
    } else {
      assert Front(a + b) == a + Front(b) && Last(a + b) == Last(b);
      MappedConcat(a, Front(b), f);
    }
  }

  lemma MappedRemoveAt<T, U>(b: seq<T>, j: nat, f: T -> U)
    requires j < |b|
    ensures multiset(Mapped(b, f)) == multiset(Mapped(b[..j] + b[j + 1..], f)) + multiset{f(b[j])}
  {
    var head, tail, y := Mapped(b[..j], f), Mapped(b[j + 1..], f), f(b[j]);
    assert Mapped(b, f) == head + [y] + tail by {
      assert b == b[..j + 1] + b[j + 1..] && Front(b[..j + 1]) == b[..j];
      MappedConcat(b[..j + 1], b[j + 1..], f);
    }
    MappedConcat(b[..j], b[j + 1..], f);
  }

  lemma {:induction false} MappedMultiset<T, U>(a: seq<T>, b: seq<T>, f: T -> U)
    requires multiset(a) == multiset(b)
    ensures multiset(Mapped(a, f)) == multiset(Mapped(b, f))
    decreases |a|
  {
    if a == [] {
      if b != [] { SplitLast(b); }
    } else {
      var j := PositionOfLast(a, b);
      var rest := b[..j] + b[j + 1..];
      SplitLast(a);
      RemoveAt(b, j);
      assert multiset(Front(a)) == multiset(a) - multiset{Last(a)} == multiset(rest);
      MappedMultiset(Front(a), rest, f);
      MappedRemoveAt(b, j, f);
    }
  }

  lemma PositionOfLast<T>(a: seq<T>, b: seq<T>) returns (j: nat)
    requires a != [] && multiset(a) == multiset(b)
    ensures j < |b| && b[j] == Last(a)
  {
    SplitLast(a);
    assert Last(a) in multiset(b);
    j :| 0 <= j < |b| && b[j] == Last(a);
  }

  /** Reordering datasets never changes the identity when role and name identify a record. */
  lemma UniqueKeysAreOrderFree(data: seq<Dataset>)
    requires RoleAndNameIdentify(data)
    ensures ListingOrderFree(data)
  {
    var texts := Mapped(data, DatasetTexts);
    MappedAt(data, DatasetTexts);
    forall i, j | 0 <= i < |texts| && 0 <= j < |texts| && RecordKey(texts[i]) == RecordKey(texts[j])
      ensures texts[i] == texts[j]
    {
      assert DatasetKey(data[i]) == DatasetKey(data[j]);
      TextsTellDatasetsApart(data[i], data[j]);
    }
    IdentifyingKeysAreOrderFree(texts, RecordKey);
    forall other: seq<Dataset> | multiset(other) == multiset(data)
      ensures DataIdentity(other) == DataIdentity(data)
    {
      MappedMultiset(other, data, DatasetTexts);
      IdentityOfTexts(other, data);
    }
  }

  /**
   The listing order is immaterial exactly when datasets that share role and name are the same input,
   which `verify` demands before it lets a run through.
  */
  lemma OrderFreeIffRoleAndNameIdentify(data: seq<Dataset>)
    ensures ListingOrderFree(data) <==> RoleAndNameIdentify(data)
  {
    if RoleAndNameIdentify(data) {
      UniqueKeysAreOrderFree(data);
    } else {
      var i, j :| 0 <= i < |data| && 0 <= j < |data| && DatasetKey(data[i]) == DatasetKey(data[j])
        && !SameDataset(data[i], data[j]);
      var a := BringToFront(data, i);
      var b := BringToFront(data, j);
      TextsTellDatasetsApart(data[i], data[j]);
      FrontRecordsDiffer(data[i], data[..i] + data[i + 1..], data[j], data[..j] + data[j + 1..]);
      assert DataIdentity(a) != DataIdentity(b);
    }
  }

  lemma MappedFront(d: Dataset, rest: seq<Dataset>)
    ensures Mapped([d] + rest, DatasetTexts) == [DatasetTexts(d)] + Mapped(rest, DatasetTexts)
  {
    MappedConcat([d], rest, DatasetTexts);
    assert Front([d]) == [];
    assert Mapped([d], DatasetTexts) == [DatasetTexts(d)];
  }

  lemma FrontRecordsDiffer(d: Dataset, rest: seq<Dataset>, e: Dataset, rest': seq<Dataset>)
    requires DatasetKey(d) == DatasetKey(e) && DatasetTexts(d) != DatasetTexts(e)
    ensures DataIdentity([d] + rest) != DataIdentity([e] + rest')
  {
    MappedFront(d, rest);
    MappedFront(e, rest');
    FrontsDiffer(DatasetTexts(d), Mapped(rest, DatasetTexts), DatasetTexts(e), Mapped(rest', DatasetTexts), RecordKey);
    IdentityOfTexts([d] + rest, [e] + rest');
  }
}
