/**
 What the identity of a run comes to: which pairs of runs share a condition, and
 which of those share an execution.
*/
module Identity {
  import opened Wrappers
  import opened TextOrder
  import opened Json
  import opened Canonical
  import opened CanonicalParser
  import opened KeyedSort
  import opened Pointers
  import opened PruneForms
  import opened Exclusions
  import H = HashPreimages

  /** The condition: the parameters without everything the block keeps out. */
  function Condition(parameters: Value, e: Resolved): Value {
    Prune(parameters, PathSet(RemovedFromConfig(e)))
  }

  /** The bytes `config_hash` is taken of, when the condition can be written. */
  ghost function ConfigInput(nfc: string -> string, parameters: Value, e: Resolved, data: seq<H.Dataset>)
    : Result<Bytes, CanonError>
  {
    match Canon(nfc, Condition(parameters, e))
    case Ok(text) => Ok(H.ConfigPreimage(text, data))
    case Err(error) => Err(error)
  }

  /** Same condition, for any two runs: equal normal forms of what is left of the parameters, and the same data. */
  lemma SameConditionIff(nfc: string -> string, p: Value, e: Resolved, data: seq<H.Dataset>,
                         q: Value, f: Resolved, data': seq<H.Dataset>)
    requires ConfigInput(nfc, p, e, data).Ok? && ConfigInput(nfc, q, f, data').Ok?
    ensures ConfigInput(nfc, p, e, data) == ConfigInput(nfc, q, f, data') <==>
      Normal(nfc, Condition(p, e)) == Normal(nfc, Condition(q, f)) && H.SameData(data, data')
  {
    var c, d := Canon(nfc, Condition(p, e)), Canon(nfc, Condition(q, f));
    H.ConfigPreimageDecodes(c.value, data, d.value, data');
    SameTextIffSameNormal(nfc, Condition(p, e), Condition(q, f));
  }

  /** What the block names cannot influence the condition. */
  lemma ExcludedPositionsAreInvisible(nfc: string -> string, p: Value, q: Value, e: Resolved, block: Block,
                                      data: seq<H.Dataset>)
    requires IsResolution(e, block) && AgreeOutside(p, q, PathSet(RemovedFromConfig(e)))
    ensures ConfigInput(nfc, p, e, data) == ConfigInput(nfc, q, e, data)
  {
    NeverTheWholeDocument(e, block);
    PrunedEqualIffAgree(p, q, PathSet(RemovedFromConfig(e)));
  }

  /**
   And nothing else can hide. Two runs share a condition exactly when the normal forms of what the
   block leaves agree everywhere and the data are the same. For parameters that are in normal form,
   and one block, that is agreement at every position the block does not name.
  */
  lemma SameConditionIffAgreeOutside(nfc: string -> string, p: Value, e: Resolved, data: seq<H.Dataset>,
                                     q: Value, f: Resolved, data': seq<H.Dataset>, block: Block)
    requires IsResolution(e, block)
    requires ConfigInput(nfc, p, e, data).Ok? && ConfigInput(nfc, q, f, data').Ok?
    ensures ConfigInput(nfc, p, e, data) == ConfigInput(nfc, q, f, data') <==>
      AgreeOutside(Normal(nfc, Condition(p, e)), Normal(nfc, Condition(q, f)), {}) && H.SameData(data, data')
    ensures
      e == f && Normal(nfc, Condition(p, e)) == Condition(p, e) && Normal(nfc, Condition(q, e)) == Condition(q, e) ==>
      (ConfigInput(nfc, p, e, data) == ConfigInput(nfc, q, e, data') <==>
       AgreeOutside(p, q, PathSet(RemovedFromConfig(e))) && H.SameData(data, data'))
  {
    SameConditionIff(nfc, p, e, data, q, f, data');
    var a, b := Normal(nfc, Condition(p, e)), Normal(nfc, Condition(q, f));
    PrunedEqualIffAgree(a, b, {});
    PruneNothing(a);
    PruneNothing(b);
    NeverTheWholeDocument(e, block);
    PrunedEqualIffAgree(p, q, PathSet(RemovedFromConfig(e)));
  }

  // -------------------------------------------------------------------------
  // Seeds
  // -------------------------------------------------------------------------

  /** The value a seed pointer names, `Null` when it names none. */
  function SeedValue(parameters: Value, tokens: Path): Value {
    match Resolve(parameters, tokens) case Some(v) => v case None => Null
  }

  ghost predicate SeedsWritable(nfc: string -> string, parameters: Value, e: Resolved) {
    forall i :: 0 <= i < |e.seeds| ==> Canon(nfc, SeedValue(parameters, e.seeds[i].tokens)).Ok?
  }

  /** Each seed: the pointer as written, and the canonical form of what it names. */
  ghost function SeedList(nfc: string -> string, parameters: Value, e: Resolved): seq<H.Seed>
    requires SeedsWritable(nfc, parameters, e)
  {
    seq(|e.seeds|, i requires 0 <= i < |e.seeds| =>
      (e.seeds[i].raw, Canon(nfc, SeedValue(parameters, e.seeds[i].tokens)).value))
  }

  /** The bytes `execution_hash` is taken of. */
  ghost function ExecutionInput(nfc: string -> string, parameters: Value, e: Resolved, configHash: string,
                                code: Option<H.Code>, envHash: string): Bytes
    requires SeedsWritable(nfc, parameters, e)
  {
    H.ExecutionPreimage(configHash, SeedList(nfc, parameters, e), code, envHash)
  }

  /** Sorting two seed lists that carry the same distinct pointers is equal only for equal lists. */
  lemma SortedSeedsDecide(a: seq<H.Seed>, b: seq<H.Seed>)
    requires |a| == |b| && forall i :: 0 <= i < |a| ==> a[i].0 == b[i].0
    requires forall i, j :: 0 <= i < j < |a| ==> a[i].0 != a[j].0
    requires StableSort(a, H.SeedKey) == StableSort(b, H.SeedKey)
    ensures a == b
  {
    assert multiset(a) == multiset(b) by {
      SortSpec(a, H.SeedKey);
      SortSpec(b, H.SeedKey);
    }
    forall i | 0 <= i < |a|
      ensures a[i] == b[i]
    {
      assert a[i] in multiset(b);
      var j :| 0 <= j < |b| && b[j] == a[i];
      assert a[j].0 == b[j].0 == a[i].0;
      assert i == j;
    }
  }

  /** Each seed's value has the same normal form in both documents. */
  ghost predicate SameSeeds(nfc: string -> string, p: Value, q: Value, e: Resolved) {
    forall i :: 0 <= i < |e.seeds| ==> SameSeed(nfc, p, q, e.seeds[i].tokens)
  }

  ghost predicate SameSeed(nfc: string -> string, p: Value, q: Value, tokens: Path) {
    Normal(nfc, SeedValue(p, tokens)) == Normal(nfc, SeedValue(q, tokens))
  }

  lemma SeedTextsDecide(nfc: string -> string, p: Value, q: Value, e: Resolved)
    requires SeedsWritable(nfc, p, e) && SeedsWritable(nfc, q, e)
    ensures SeedList(nfc, p, e) == SeedList(nfc, q, e) <==> SameSeeds(nfc, p, q, e)
  {
    var a, b := SeedList(nfc, p, e), SeedList(nfc, q, e);
    forall i | 0 <= i < |e.seeds|
      ensures a[i] == b[i] <==> SameSeed(nfc, p, q, e.seeds[i].tokens)
    {
      SameTextIffSameNormal(nfc, SeedValue(p, e.seeds[i].tokens), SeedValue(q, e.seeds[i].tokens));
    }
  }

  /** With the same block, the seeds a run contributes are the same exactly when their values are. */
  lemma SeedListsDecide(nfc: string -> string, p: Value, q: Value, e: Resolved, block: Block)
    requires IsResolution(e, block) && SeedsWritable(nfc, p, e) && SeedsWritable(nfc, q, e)
    ensures StableSort(SeedList(nfc, p, e), H.SeedKey) == StableSort(SeedList(nfc, q, e), H.SeedKey)
        <==> SameSeeds(nfc, p, q, e)
  {
    var a, b := SeedList(nfc, p, e), SeedList(nfc, q, e);
    SeedTextsDecide(nfc, p, q, e);
    EachPointerHasOneHome(e, block, "");
    forall i, j | 0 <= i < j < |a|
      ensures a[i].0 != a[j].0
    {
      assert Raws(e.seeds)[i] != Raws(e.seeds)[j];
    }
    if StableSort(a, H.SeedKey) == StableSort(b, H.SeedKey) {
      SortedSeedsDecide(a, b);
    }
  }

  /**
   Replicates. Two runs that agree outside what the block names share their condition; with the same
   code and environment they share their execution exactly when every seed has the same value.
  */
  lemma ReplicatesDifferInTheirSeeds(nfc: string -> string, p: Value, q: Value, e: Resolved, block: Block,
                                     data: seq<H.Dataset>, configHash: string, code: Option<H.Code>, envHash: string)
    requires IsResolution(e, block) && AgreeOutside(p, q, PathSet(RemovedFromConfig(e)))
    requires SeedsWritable(nfc, p, e) && SeedsWritable(nfc, q, e)
    ensures ConfigInput(nfc, p, e, data) == ConfigInput(nfc, q, e, data)
    ensures ExecutionInput(nfc, p, e, configHash, code, envHash) == ExecutionInput(nfc, q, e, configHash, code, envHash)
        <==> SameSeeds(nfc, p, q, e)
  {
    ExcludedPositionsAreInvisible(nfc, p, q, e, block, data);
    SeedListsDecide(nfc, p, q, e, block);
    H.ExecutionPreimageDecodes(configHash, SeedList(nfc, p, e), code, envHash,
                               configHash, SeedList(nfc, q, e), code, envHash);
    assert H.SameCode(code, code);
  }
}
