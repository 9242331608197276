/**
 The layout of the hashed bytes: which input stands where, as it is read back
 from them. Two implementations that keep it agree on every digest.
*/
module HashLayout {
  import opened Wrappers
  import opened Decimal
  import opened TextOrder
  import opened Sequences
  import opened Framing
  import opened KeyedSort
  import opened HashPreimages

  /** One input: its length in decimal, a colon, its bytes. */
  lemma FrameLooks(input: Bytes)
    ensures Join([input]) == Utf8(Numeral(|input|) + ":") + input
  {
    var digits := Numeral(|input|);
    assert Utf8(digits + ":") == Utf8(digits) + [58] by {
      Utf8Concat(digits, ":");
      ColonIsOneByte();
    }
    OneFrame(input);
  }

  lemma ColonIsOneByte()
    ensures Utf8(":") == [58]
  {
    assert ":"[1..] == "" && EncodeChar(':') == [58];
  }

  lemma OneFrame(input: Bytes)
    ensures Join([input]) == Utf8(Numeral(|input|)) + [58] + input
  {
    assert [input][1..] == [] && Join([input]) == Framed(input) + Join([]);
  }

  lemma {:induction false} Utf8Concat(a: string, b: string)
    ensures Utf8(a + b) == Utf8(a) + Utf8(b)
    decreases |a|
  {
    if a == [] {
      assert a + b == b;
    } else {
      assert (a + b)[0] == a[0] && (a + b)[1..] == a[1..] + b;
      Utf8Concat(a[1..], b);
    }
  }

  /** The `i`-th input that is read back from some bytes is this text. */
  ghost predicate Holds(bytes: Bytes, i: nat, text: string) {
    Framing.Split(bytes).Some? && i < |Framing.Split(bytes).value| && Framing.Split(bytes).value[i] == Utf8(text)
  }

  /** These texts are read back in a row, from the `at`-th input on. */
  ghost predicate HoldsAll(bytes: Bytes, at: nat, texts: seq<string>) {
    forall f :: 0 <= f < |texts| ==> Holds(bytes, at + f, texts[f])
  }

  ghost predicate HoldsBytes(bytes: Bytes, i: nat, input: Bytes) {
    Framing.Split(bytes).Some? && i < |Framing.Split(bytes).value| && Framing.Split(bytes).value[i] == input
  }

  ghost predicate HasInputs(bytes: Bytes, n: nat) {
    Framing.Split(bytes).Some? && |Framing.Split(bytes).value| == n
  }

  lemma {:induction false} EncodedAt(ts: seq<string>, i: nat)
    requires i < |ts|
    ensures |Encoded(ts)| == |ts| && Encoded(ts)[i] == Utf8(ts[i])
    decreases |ts|
  {
    if |ts| > 1 {
      EncodedAt(Front(ts), if i < |ts| - 1 then i else 0);
    } else {
      assert Encoded(Front(ts)) == [];
    }
  }

  lemma FramesHold(ts: seq<string>, i: nat)
    requires i < |ts|
    ensures HasInputs(Frames(ts), |ts|) && Holds(Frames(ts), i, ts[i])
  {
    JoinRoundTrip(Encoded(ts));
    EncodedAt(ts, i);
  }

  /** Where the texts of one record are among those of all. */
  lemma {:induction false} FlattenAt<T>(xs: seq<T>, texts: T -> seq<string>, width: nat, k: nat, at: nat)
    requires (forall x :: |texts(x)| == width) && k < |xs| && at == width * k
    ensures at + width <= |Flatten(xs, texts)| && Flatten(xs, texts)[at..at + width] == texts(xs[k])
    decreases |xs|
  {
    var before := Flatten(Front(xs), texts);
    FlattenLength(Front(xs), texts, width);
    if k < |xs| - 1 {
      FlattenAt(Front(xs), texts, width, k, at);
      assert Flatten(xs, texts)[..|before|] == before;
    } else {
      assert |before| == at;
    }
  }

  lemma {:induction false} FlattenLength<T>(xs: seq<T>, texts: T -> seq<string>, width: nat)
    requires forall x :: |texts(x)| == width
    ensures |Flatten(xs, texts)| == width * |xs|
    decreases |xs|
  {
    if xs != [] {
      FlattenLength(Front(xs), texts, width);
      assert width * |xs| == width * |Front(xs)| + width;
    }
  }

  lemma TextHeld(ts: seq<string>, i: nat, text: string)
    requires i < |ts| && ts[i] == text
    ensures Holds(Frames(ts), i, text)
  {
    FramesHold(ts, i);
  }

  lemma RecordHeld<T>(xs: seq<T>, texts: T -> seq<string>, width: nat, k: nat, at: nat)
    requires (forall x :: |texts(x)| == width) && k < |xs| && at == width * k
    ensures HoldsAll(Frames(Flatten(xs, texts)), at, texts(xs[k]))
  {
    FlattenAt(xs, texts, width, k, at);
    PartHeld(Flatten(xs, texts), at, texts(xs[k]));
  }

  lemma PartHeld(ts: seq<string>, at: nat, part: seq<string>)
    requires at + |part| <= |ts| && ts[at..at + |part|] == part
    ensures HoldsAll(Frames(ts), at, part)
  {
    forall f | 0 <= f < |part|
      ensures Holds(Frames(ts), at + f, part[f])
    {
      assert ts[at..at + |part|][f] == ts[at + f];
      TextHeld(ts, at + f, part[f]);
    }
  }

  // Datasets

  predicate InOrder(a: (string, string), b: (string, string)) {
    a == b || Before(a.0, b.0) || (a.0 == b.0 && Before(a.1, b.1))
  }

  lemma {:induction false} OrderedPairs<T>(xs: seq<T>, key: T -> Key, i: nat, j: nat)
    requires Ordered(xs, key) && i < j < |xs|
    ensures InOrder(key(xs[i]), key(xs[j]))
    decreases |xs|
  {
    if j < |xs| - 1 {
      OrderedPairs(Front(xs), key, i, j);
    } else {
      KeyTotal(key(xs[j - 1]), key(xs[j]));
      assert Last(Front(xs)) == xs[j - 1];
      if i < j - 1 {
        OrderedPairs(Front(xs), key, i, j - 1);
        if key(xs[i]) != key(xs[j - 1]) && key(xs[j - 1]) != key(xs[j]) {
          KeyTransitive(key(xs[i]), key(xs[j - 1]), key(xs[j]));
        }
      }
    }
  }

  /** A relisting of some elements, ordered by a pair of texts. */
  ghost predicate SortedListing<T(!new)>(sorted: seq<T>, xs: seq<T>, first: T -> string, second: T -> string) {
    && multiset(sorted) == multiset(xs)
    && forall i, j :: 0 <= i < j < |sorted| ==>
         InOrder((first(sorted[i]), second(sorted[i])), (first(sorted[j]), second(sorted[j])))
  }

  lemma SortIsListing<T(!new)>(xs: seq<T>, key: T -> Key, first: T -> string, second: T -> string)
    requires forall x :: key(x) == (first(x), second(x))
    ensures SortedListing(StableSort(xs, key), xs, first, second)
  {
    SortSpec(xs, key);
    var sorted := StableSort(xs, key);
    forall i, j | 0 <= i < j < |sorted|
      ensures InOrder((first(sorted[i]), second(sorted[i])), (first(sorted[j]), second(sorted[j])))
    {
      OrderedPairs(sorted, key, i, j);
    }
  }

  function HashAlgorithm(d: Dataset): string {
    match d.hash
    case None => ""
    case Some(h) => if h.algorithm.Blake3? then "blake3" else "sha256"
  }

  function HashValue(d: Dataset): string {
    match d.hash case None => "" case Some(h) => h.value
  }

  function Scope(d: Dataset): string {
    match d.hashScope
    case None => ""
    case Some(scope) => if scope.File? then "file" else "dir_manifest"
  }

  function Text(t: Option<string>): string {
    match t case None => "" case Some(s) => s
  }

  /** The ten inputs of one dataset. */
  function DatasetInputs(d: Dataset): seq<string> {
    [ d.role, d.name, Text(d.datasetId), Text(d.version), Text(d.split), HashAlgorithm(d), HashValue(d), Scope(d),
      Text(d.uri), match d.n case None => "" case Some(n) => Numeral(n) ]
  }

  /** The data identity holds the datasets by role and name, ten inputs each. */
  lemma DataLayout(data: seq<Dataset>) returns (sorted: seq<Dataset>)
    ensures SortedListing(sorted, data, (d: Dataset) => d.role, (d: Dataset) => d.name)
    ensures HasInputs(DataIdentity(data), 10 * |data|)
    ensures forall k :: 0 <= k < |sorted| ==> HoldsAll(DataIdentity(data), 10 * k, DatasetInputs(sorted[k]))
  {
    sorted := StableSort(data, DatasetKey);
    SortIsListing(data, DatasetKey, (d: Dataset) => d.role, (d: Dataset) => d.name);
    SortSpec(data, DatasetKey);
    assert |sorted| == |data| by { assert |multiset(sorted)| == |multiset(data)|; }
    FlattenLength(sorted, DatasetTexts, 10);
    JoinRoundTrip(Encoded(Flatten(sorted, DatasetTexts)));
    EncodedLength(Flatten(sorted, DatasetTexts));
    forall k | 0 <= k < |sorted|
      ensures HoldsAll(DataIdentity(data), 10 * k, DatasetInputs(sorted[k]))
    {
      DatasetHeld(sorted, k);
    }
  }

  lemma DatasetHeld(sorted: seq<Dataset>, k: nat)
    requires k < |sorted|
    ensures HoldsAll(Frames(Flatten(sorted, DatasetTexts)), 10 * k, DatasetInputs(sorted[k]))
  {
    assert DatasetInputs(sorted[k]) == DatasetTexts(sorted[k]);
    RecordHeld(sorted, DatasetTexts, 10, k, 10 * k);
  }

  // The three preimages

  /** The condition: the canonical parameters, then the data. */
  lemma ConfigLayout(canonical: string, data: seq<Dataset>)
    ensures var bytes := ConfigPreimage(canonical, data);
            HasInputs(bytes, 2) && Holds(bytes, 0, canonical) && HoldsBytes(bytes, 1, DataIdentity(data))
  {
    JoinRoundTrip([Utf8(canonical), DataIdentity(data)]);
  }

  function Kind(k: LockKind): string {
    match k case Cargo => "cargo" case Uv => "uv" case Poetry => "poetry" case Pip => "pip" case Other => "other"
  }

  /** The four inputs of one lock file. */
  function LockInputs(l: Lock): seq<string> {
    [Kind(l.kind), l.file, if l.hash.algorithm.Blake3? then "blake3" else "sha256", l.hash.value]
  }

  /** The environment: system, architecture, both versions, then the lock files by kind and name, four inputs each. */
  lemma EnvLayout(env: Env) returns (sorted: seq<Lock>, blob: Bytes)
    ensures var bytes := EnvPreimage(env);
            && HasInputs(bytes, 5) && Holds(bytes, 0, env.os) && Holds(bytes, 1, env.arch)
            && Holds(bytes, 2, Text(env.rustc)) && Holds(bytes, 3, Text(env.python)) && HoldsBytes(bytes, 4, blob)
    ensures SortedListing(sorted, env.locks, (l: Lock) => Kind(l.kind), (l: Lock) => l.file)
    ensures forall k :: 0 <= k < |sorted| ==> HoldsAll(blob, 4 * k, LockInputs(sorted[k]))
  {
    sorted := StableSort(env.locks, LockKey);
    blob := Frames(Flatten(sorted, LockTexts));
    SortIsListing(env.locks, LockKey, (l: Lock) => Kind(l.kind), (l: Lock) => l.file);
    JoinRoundTrip([Utf8(env.os), Utf8(env.arch), Utf8(OrEmpty(env.rustc)), Utf8(OrEmpty(env.python)), blob]);
    forall k | 0 <= k < |sorted|
      ensures HoldsAll(blob, 4 * k, LockInputs(sorted[k]))
    {
      LockHeld(sorted, k);
    }
  }

  lemma LockHeld(sorted: seq<Lock>, k: nat)
    requires k < |sorted|
    ensures HoldsAll(Frames(Flatten(sorted, LockTexts)), 4 * k, LockInputs(sorted[k]))
  {
    assert LockInputs(sorted[k]) == LockTexts(sorted[k]);
    RecordHeld(sorted, LockTexts, 4, k, 4 * k);
  }

  /** The three inputs of the code: nothing for a run without. */
  function CodeInputs(code: Option<Code>): seq<string> {
    match code
    case None => ["", "", ""]
    case Some(c) =>
      [c.gitCommit, if c.gitDirty then "true" else "false", match c.dirtyHash case None => "" case Some(h) => h.value]
  }

  /** The execution: the condition's hash, the seeds by pointer with two inputs each, the code, the environment. */
  lemma ExecutionLayout(configHash: string, seeds: seq<Seed>, code: Option<Code>, envHash: string)
    returns (sorted: seq<Seed>, blob: Bytes)
    ensures var bytes := ExecutionPreimage(configHash, seeds, code, envHash);
            && HasInputs(bytes, 6) && Holds(bytes, 0, configHash) && HoldsBytes(bytes, 1, blob)
            && HoldsAll(bytes, 2, CodeInputs(code)) && Holds(bytes, 5, envHash)
    ensures SortedListing(sorted, seeds, (s: Seed) => s.0, (s: Seed) => "")
    ensures forall k :: 0 <= k < |sorted| ==> HoldsAll(blob, 2 * k, [sorted[k].0, sorted[k].1])
  {
    sorted := StableSort(seeds, SeedKey);
    blob := SeedBlob(seeds);
    SortIsListing(seeds, SeedKey, (s: Seed) => s.0, (s: Seed) => "");
    CodeHeld(configHash, blob, code, envHash);
    assert ExecutionInputs(configHash, seeds, code, envHash) ==
           [Utf8(configHash), blob] + Encoded(CodeTexts(code)) + [Utf8(envHash)];
    forall k | 0 <= k < |sorted|
      ensures HoldsAll(blob, 2 * k, [sorted[k].0, sorted[k].1])
    {
      RecordHeld(sorted, SeedTexts, 2, k, 2 * k);
    }
  }

  lemma CodeHeld(configHash: string, blob: Bytes, code: Option<Code>, envHash: string)
    ensures var bytes := Join([Utf8(configHash), blob] + Encoded(CodeTexts(code)) + [Utf8(envHash)]);
            && HasInputs(bytes, 6) && Holds(bytes, 0, configHash) && HoldsBytes(bytes, 1, blob)
            && HoldsAll(bytes, 2, CodeInputs(code)) && Holds(bytes, 5, envHash)
  {
    var ts := CodeTexts(code);
    assert CodeInputs(code) == ts && |ts| == 3;
    ThreeTextsHeld(configHash, blob, ts, envHash);
  }

  lemma ThreeTextsHeld(configHash: string, blob: Bytes, ts: seq<string>, envHash: string)
    requires |ts| == 3
    ensures var bytes := Join([Utf8(configHash), blob] + Encoded(ts) + [Utf8(envHash)]);
            && HasInputs(bytes, 6) && Holds(bytes, 0, configHash) && HoldsBytes(bytes, 1, blob)
            && HoldsAll(bytes, 2, ts) && Holds(bytes, 5, envHash)
  {
    var inputs := [Utf8(configHash), blob] + Encoded(ts) + [Utf8(envHash)];
    InputsHeld(inputs);
    InputsAreTexts(Join(inputs), inputs, configHash, blob, ts, envHash);
  }

  lemma InputsAreTexts(
    bytes: Bytes, inputs: seq<Bytes>, configHash: string, blob: Bytes, ts: seq<string>, envHash: string)
    requires |ts| == 3 && inputs == [Utf8(configHash), blob] + Encoded(ts) + [Utf8(envHash)]
    requires HasInputs(bytes, |inputs|) && forall i :: 0 <= i < |inputs| ==> HoldsBytes(bytes, i, inputs[i])
    ensures HasInputs(bytes, 6) && Holds(bytes, 0, configHash) && HoldsBytes(bytes, 1, blob)
    ensures HoldsAll(bytes, 2, ts) && Holds(bytes, 5, envHash)
  {
    EncodedLength(ts);
    assert HoldsBytes(bytes, 0, inputs[0]) && HoldsBytes(bytes, 1, inputs[1]) && HoldsBytes(bytes, 5, inputs[5]);
    forall f | 0 <= f < 3
      ensures Holds(bytes, 2 + f, ts[f])
    {
      EncodedAt(ts, f);
      assert inputs[2 + f] == Encoded(ts)[f];
      assert HoldsBytes(bytes, 2 + f, inputs[2 + f]);
    }
  }

  lemma InputsHeld(inputs: seq<Bytes>)
    ensures HasInputs(Join(inputs), |inputs|)
    ensures forall i :: 0 <= i < |inputs| ==> HoldsBytes(Join(inputs), i, inputs[i])
  {
    JoinRoundTrip(inputs);
  }
}
