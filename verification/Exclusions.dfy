/**
 Which pointers a run declares, and which of the three lists each one ends up in.

 `hash_exclude` beats `seed_pointers` beats `invariant_to`. The Rust resolver
 parses, checks and deduplicates each list and then filters; the Python one
 deduplicates against the lists before. On success they produce the same lists.
*/
module Exclusions {
  import opened Wrappers
  import opened Decimal
  import opened Sequences
  import opened Json
  import opened Pointers
  import opened PruneForms
  import opened PointerSyntax

  datatype Block = Block(hashExclude: seq<string>, seedPointers: seq<string>, invariantTo: seq<string>)

  datatype Pointer = Pointer(raw: string, tokens: Path)

  datatype Resolved = Resolved(hashExclude: seq<Pointer>, seeds: seq<Pointer>, invariantTo: seq<Pointer>)

  datatype ExclusionError = PointerSyntaxError(raw: string) | PointerNotFound(raw: string)

  /** The pointer is well-formed and names something in the parameters. */
  predicate Resolves(raw: string, parameters: Value) {
    Tokens(raw).Some? && Resolve(parameters, Tokens(raw).value).Some?
  }

  function Parsed(raw: string): Pointer
    requires Tokens(raw).Some?
  {
    Pointer(raw, Tokens(raw).value)
  }

  predicate AllResolve(raws: seq<string>, parameters: Value) {
    forall i :: 0 <= i < |raws| ==> Resolves(raws[i], parameters)
  }

  /** The texts that are not in `seen`, each at its first occurrence. */
  function Dedup(raws: seq<string>, seen: set<string>): seq<string> {
    if raws == [] then []
    else if raws[0] in seen then Dedup(raws[1..], seen)
    else [raws[0]] + Dedup(raws[1..], seen + {raws[0]})
  }

  function SetOf(raws: seq<string>): set<string> {
    set r | r in raws
  }

  function Raws(pointers: seq<Pointer>): seq<string> {
    seq(|pointers|, i requires 0 <= i < |pointers| => pointers[i].raw)
  }

  ghost predicate Distinct(raws: seq<string>) {
    forall i, j :: 0 <= i < j < |raws| ==> raws[i] != raws[j]
  }

  /** Deduplicating against `seen` keeps exactly the texts outside it, without repetition. */
  lemma {:induction false} DedupSpec(raws: seq<string>, seen: set<string>)
    ensures SetOf(Dedup(raws, seen)) == SetOf(raws) - seen
    ensures Distinct(Dedup(raws, seen))
    decreases |raws|
  {
    if raws != [] {
      var more := if raws[0] in seen then seen else seen + {raws[0]};
      DedupSpec(raws[1..], more);
      assert SetOf(raws) == {raws[0]} + SetOf(raws[1..]) by { assert raws == [raws[0]] + raws[1..]; }
      if raws[0] !in seen {
        var rest := Dedup(raws[1..], more);
        assert raws[0] !in SetOf(rest);
        assert SetOf([raws[0]] + rest) == {raws[0]} + SetOf(rest);
      }
    }
  }

  lemma {:induction false} DedupSnoc(raws: seq<string>, last: string, seen: set<string>)
    ensures Dedup(raws + [last], seen)
         == if last in seen || last in raws then Dedup(raws, seen) else Dedup(raws, seen) + [last]
    decreases |raws|
  {
    if raws == [] {
      assert raws + [last] == [last];
    } else {
      assert (raws + [last])[0] == raws[0] && (raws + [last])[1..] == raws[1..] + [last];
      assert last in raws <==> last == raws[0] || last in raws[1..];
      DedupSnoc(raws[1..], last, if raws[0] in seen then seen else seen + {raws[0]});
    }
  }

  /** Filtering a deduplicated list is deduplicating against the filter. */
  lemma {:induction false} FilterIsSeen(raws: seq<string>, seen: set<string>, out: set<string>)
    ensures Without(Dedup(raws, seen), out) == Dedup(raws, seen + out)
    decreases |raws|
  {
    if raws != [] {
      if raws[0] in seen {
        FilterIsSeen(raws[1..], seen, out);
      } else {
        var rest := Dedup(raws[1..], seen + {raws[0]});
        FilterIsSeen(raws[1..], seen + {raws[0]}, out);
        assert ([raws[0]] + rest)[1..] == rest;
        assert (seen + {raws[0]}) + out == (seen + out) + {raws[0]};
        if raws[0] in out { assert (seen + out) + {raws[0]} == seen + out; }
      }
    }
  }

  function Without(raws: seq<string>, out: set<string>): seq<string> {
    if raws == [] then []
    else if raws[0] in out then Without(raws[1..], out)
    else [raws[0]] + Without(raws[1..], out)
  }

  // -------------------------------------------------------------------------
  // The Rust resolver
  // -------------------------------------------------------------------------

  /** What one list parses to: the pointers of `raws`, in order. */
  ghost predicate ParsedList(pointers: seq<Pointer>, raws: seq<string>) {
    && |pointers| == |raws|
    && forall i :: 0 <= i < |raws| ==> Tokens(raws[i]).Some? && pointers[i] == Parsed(raws[i])
  }

  /** The error is about the first pointer that does not resolve, and says what is wrong with it. */
  ghost predicate Blames(error: ExclusionError, raws: seq<string>, parameters: Value) {
    exists i :: 0 <= i < |raws| && !Resolves(raws[i], parameters) && AllResolve(raws[..i], parameters) &&
      match error
      case PointerSyntaxError(raw) => raw == raws[i] && Tokens(raw).None?
      case PointerNotFound(raw) => raw == raws[i] && Tokens(raw).Some?
  }

  lemma FirstIsBlamed(error: ExclusionError, raws: seq<string>, parameters: Value, i: nat)
    requires i < |raws| && !Resolves(raws[i], parameters) && AllResolve(raws[..i], parameters)
    requires error == if Tokens(raws[i]).None? then PointerSyntaxError(raws[i]) else PointerNotFound(raws[i])
    ensures Blames(error, raws, parameters) && !AllResolve(raws, parameters)
  {
  }

  /** Parses, checks and deduplicates one list. */
  method ParseList(raws: seq<string>, parameters: Value) returns (r: Result<seq<Pointer>, ExclusionError>)
    ensures r.Ok? <==> AllResolve(raws, parameters)
    ensures r.Ok? ==> ParsedList(r.value, Dedup(raws, {}))
    ensures r.Err? ==> Blames(r.error, raws, parameters)
  {
    var out: seq<Pointer> := [];
    for i := 0 to |raws|
      invariant AllResolve(raws[..i], parameters)
      invariant ParsedList(out, Dedup(raws[..i], {}))
    {
      var tokens := ParsePointer(raws[i]);
      if tokens.None? {
        FirstIsBlamed(PointerSyntaxError(raws[i]), raws, parameters, i);
        return Err(PointerSyntaxError(raws[i]));
      }
      var node := ResolvePointer(parameters, tokens.value);
      if node.None? {
        FirstIsBlamed(PointerNotFound(raws[i]), raws, parameters, i);
        return Err(PointerNotFound(raws[i]));
      }
      var pointer := Pointer(raws[i], tokens.value);
      assert raws[..i + 1] == raws[..i] + [raws[i]];
      OneMoreParsed(out, raws[..i], raws[i]);
      if pointer !in out {
        out := out + [pointer];
      }
    }
    assert raws[..|raws|] == raws;
    return Ok(out);
  }

  lemma OneMoreParsed(out: seq<Pointer>, raws: seq<string>, raw: string)
    requires ParsedList(out, Dedup(raws, {})) && Tokens(raw).Some?
    ensures ParsedList(if Parsed(raw) in out then out else out + [Parsed(raw)], Dedup(raws + [raw], {}))
  {
    DedupSnoc(raws, raw, {});
    ListedIffSeen(out, raws, raw);
  }

  lemma ListedIffSeen(out: seq<Pointer>, raws: seq<string>, raw: string)
    requires ParsedList(out, Dedup(raws, {})) && Tokens(raw).Some?
    ensures Parsed(raw) in out <==> raw in raws
  {
    DedupSpec(raws, {});
    var kept := Dedup(raws, {});
    assert raw in raws <==> raw in SetOf(kept);
    if raw in kept {
      var i :| 0 <= i < |kept| && kept[i] == raw;
      assert out[i] == Parsed(raw);
    }
    if Parsed(raw) in out {
      var i :| 0 <= i < |out| && out[i] == Parsed(raw);
      assert kept[i] == raw;
    }
  }

  /** Keeps the pointers that are in neither list. */
  method FilterOut(pointers: seq<Pointer>, raws: seq<string>, first: seq<Pointer>, second: seq<Pointer>,
                   ghost out: set<string>)
    returns (kept: seq<Pointer>)
    requires ParsedList(pointers, raws)
    requires forall p :: p in pointers ==> (p in first || p in second <==> p.raw in out)
    ensures ParsedList(kept, Without(raws, out))
  {
    kept := [];
    assert raws[0..] == raws;
    ghost var done: seq<string> := [];
    for i := 0 to |pointers|
      invariant ParsedList(kept, done) && done + Without(raws[i..], out) == Without(raws, out)
    {
      assert raws[i..][0] == raws[i] && raws[i..][1..] == raws[i + 1..];
      assert pointers[i] in pointers && pointers[i].raw == raws[i];
      if pointers[i] !in first && pointers[i] !in second {
        kept := kept + [pointers[i]];
        assert done + ([raws[i]] + Without(raws[i + 1..], out)) == done + [raws[i]] + Without(raws[i + 1..], out);
        done := done + [raws[i]];
      }
    }
    assert raws[|pointers|..] == [] && done + [] == done;
  }

  /** The three lists that result. */
  ghost predicate IsResolution(e: Resolved, block: Block) {
    var h := SetOf(block.hashExclude);
    var s := SetOf(block.seedPointers);
    && ParsedList(e.hashExclude, Dedup(block.hashExclude, {}))
    && ParsedList(e.seeds, Dedup(block.seedPointers, h))
    && ParsedList(e.invariantTo, Dedup(block.invariantTo, h + s))
  }

  lemma ListedIsNamed(pointers: seq<Pointer>, raws: seq<string>, names: set<string>, p: Pointer)
    requires ParsedList(pointers, raws) && SetOf(raws) == names
    requires Tokens(p.raw).Some? && p == Parsed(p.raw)
    ensures p in pointers <==> p.raw in names
  {
    if p in pointers {
      var i :| 0 <= i < |pointers| && pointers[i] == p;
      assert raws[i] == p.raw;
    }
    if p.raw in names {
      var i :| 0 <= i < |raws| && raws[i] == p.raw;
      assert pointers[i] == p;
    }
  }

  /** Resolves the control block. It succeeds exactly when every pointer of every list resolves. */
  method ResolveBlock(block: Block, parameters: Value) returns (r: Result<Resolved, ExclusionError>)
    ensures r.Ok? <==> AllResolve(block.hashExclude, parameters) && AllResolve(block.seedPointers, parameters)
                       && AllResolve(block.invariantTo, parameters)
    ensures r.Ok? ==> IsResolution(r.value, block)
    ensures r.Err? ==> Blames(r.error,
        if !AllResolve(block.hashExclude, parameters) then block.hashExclude
        else if !AllResolve(block.seedPointers, parameters) then block.seedPointers
        else block.invariantTo, parameters)
  {
    var hash := ParseList(block.hashExclude, parameters);
    if hash.Err? { return Err(hash.error); }
    var seed := ParseList(block.seedPointers, parameters);
    if seed.Err? { return Err(seed.error); }
    ghost var h, s := SetOf(block.hashExclude), SetOf(block.seedPointers);
    assert forall p :: p in seed.value ==> (p in hash.value || p in [] <==> p.raw in h) by {
      FilterGuard(seed.value, Dedup(block.seedPointers, {}), hash.value, block.hashExclude);
    }
    var seeds := FilterOut(seed.value, Dedup(block.seedPointers, {}), hash.value, [], h);
    FilterIsSeen(block.seedPointers, {}, h);
    assert {} + h == h;
    var invariantTo := ParseList(block.invariantTo, parameters);
    if invariantTo.Err? { return Err(invariantTo.error); }
    assert forall p :: p in invariantTo.value ==> (p in hash.value || p in seeds <==> p.raw in h + s) by {
      SecondGuard(invariantTo.value, block, hash.value, seeds);
    }
    var kept := FilterOut(invariantTo.value, Dedup(block.invariantTo, {}), hash.value, seeds, h + s);
    FilterIsSeen(block.invariantTo, {}, h + s);
    assert {} + (h + s) == h + s;
    return Ok(Resolved(hash.value, seeds, kept));
  }

  lemma FilterGuard(pointers: seq<Pointer>, raws: seq<string>, hash: seq<Pointer>, hashRaws: seq<string>)
    requires ParsedList(pointers, raws) && ParsedList(hash, Dedup(hashRaws, {}))
    ensures forall p :: p in pointers ==> (p in hash <==> p.raw in SetOf(hashRaws))
  {
    DedupSpec(hashRaws, {});
    forall p | p in pointers
      ensures p in hash <==> p.raw in SetOf(hashRaws)
    {
      ListedIsNamed(hash, Dedup(hashRaws, {}), SetOf(hashRaws), p);
    }
  }

  lemma SecondGuard(pointers: seq<Pointer>, block: Block, hash: seq<Pointer>, seeds: seq<Pointer>)
    requires ParsedList(pointers, Dedup(block.invariantTo, {}))
    requires ParsedList(hash, Dedup(block.hashExclude, {}))
    requires ParsedList(seeds, Dedup(block.seedPointers, SetOf(block.hashExclude)))
    ensures forall p :: p in pointers ==>
      (p in hash || p in seeds <==> p.raw in SetOf(block.hashExclude) + SetOf(block.seedPointers))
  {
    var h, s := SetOf(block.hashExclude), SetOf(block.seedPointers);
    DedupSpec(block.hashExclude, {});
    DedupSpec(block.seedPointers, h);
    forall p | p in pointers
      ensures p in hash || p in seeds <==> p.raw in h + s
    {
      ListedIsNamed(hash, Dedup(block.hashExclude, {}), h, p);
      ListedIsNamed(seeds, Dedup(block.seedPointers, h), s - h, p);
    }
  }

  // -------------------------------------------------------------------------
  // The Python resolver
  // -------------------------------------------------------------------------

  /** `_dedup`: keeps what is not in `seen`, adding to it as it goes. */
  method PyDedup(raws: seq<string>, seen: set<string>) returns (out: seq<string>)
    ensures out == Dedup(raws, seen)
  {
    out := [];
    var now := seen;
    assert raws[0..] == raws;
    for i := 0 to |raws|
      invariant out + Dedup(raws[i..], now) == Dedup(raws, seen)
    {
      assert raws[i..][0] == raws[i] && raws[i..][1..] == raws[i + 1..];
      if raws[i] !in now {
        assert out + ([raws[i]] + Dedup(raws[i + 1..], now + {raws[i]})) ==
            out + [raws[i]] + Dedup(raws[i + 1..], now + {raws[i]});
        now := now + {raws[i]};
        out := out + [raws[i]];
      }
    }
    assert raws[|raws|..] == [] && out + [] == out;
  }

  function PyUnescapeAll(segments: seq<string>): Path {
    seq(|segments|, i requires 0 <= i < |segments| => PythonUnescape(segments[i]))
  }

  /** `parse_pointer`: no escape is refused. */
  function PyTokens(raw: string): Option<Path> {
    if raw == "" || raw[0] != '/' then None else Some(PyUnescapeAll(Split(raw[1..], '/')))
  }

  /** `resolve` finds a node: an index is spelled plainly. */
  predicate PyResolves(raw: string, parameters: Value) {
    PyTokens(raw).Some? && At(parameters, PyTokens(raw).value).Some?
  }

  /** `resolve`, with its cursor. */
  method PyResolvePointer(parameters: Value, raw: string) returns (r: Option<Value>)
    ensures r.Some? <==> PyResolves(raw, parameters)
    ensures r.Some? ==> r == At(parameters, PyTokens(raw).value)
  {
    var tokens := PyTokens(raw);
    if tokens.None? { return None; }
    var node := parameters;
    for i := 0 to |tokens.value|
      invariant At(node, tokens.value[i..]) == At(parameters, tokens.value)
    {
      var token := tokens.value[i];
      assert tokens.value[i..][0] == token && tokens.value[i..][1..] == tokens.value[i + 1..];
      match node {
        case Obj(fields) =>
          if token !in fields { return None; }
          node := fields[token];
        case Arr(items) =>
          if !IsIndexOf(token, |items|) { return None; }
          node := items[ValueOf(token)];
        case _ => return None;
      }
    }
    return Some(node);
  }

  datatype PyExclusions = PyExclusions(hashExclude: seq<string>, seedPointers: seq<string>, invariantTo: seq<string>)

  predicate AllPyResolve(raws: seq<string>, parameters: Value) {
    forall r :: r in raws ==> PyResolves(r, parameters)
  }

  predicate BlockPyResolves(block: Block, parameters: Value) {
    AllPyResolve(block.hashExclude, parameters) && AllPyResolve(block.seedPointers, parameters)
    && AllPyResolve(block.invariantTo, parameters)
  }

  /** The three lists after deduplication. */
  function PyLists(block: Block): PyExclusions {
    PyExclusions(Dedup(block.hashExclude, {}),
                 Dedup(block.seedPointers, SetOf(block.hashExclude)),
                 Dedup(block.invariantTo, SetOf(block.hashExclude) + SetOf(block.seedPointers)))
  }

  /** What is kept is everything that was declared. */
  lemma KeptIsDeclared(block: Block)
    ensures var l := PyLists(block);
            SetOf(l.hashExclude + l.seedPointers + l.invariantTo) ==
            SetOf(block.hashExclude) + SetOf(block.seedPointers) + SetOf(block.invariantTo)
  {
    var h, s := SetOf(block.hashExclude), SetOf(block.seedPointers);
    DedupSpec(block.hashExclude, {});
    DedupSpec(block.seedPointers, h);
    DedupSpec(block.invariantTo, h + s);
    var l := PyLists(block);
    forall r
      ensures r in l.hashExclude + l.seedPointers + l.invariantTo <==>
              r in SetOf(l.hashExclude) || r in SetOf(l.seedPointers) || r in SetOf(l.invariantTo)
    {
    }
  }

  /** Where the Rust resolver succeeds, it comes to the same lists. */
  lemma SameLists(block: Block, e: Resolved)
    requires IsResolution(e, block)
    ensures PyLists(block) == PyExclusions(Raws(e.hashExclude), Raws(e.seeds), Raws(e.invariantTo))
  {
    ParsedRaws(e.hashExclude, PyLists(block).hashExclude);
    ParsedRaws(e.seeds, PyLists(block).seedPointers);
    ParsedRaws(e.invariantTo, PyLists(block).invariantTo);
  }

  /** The final check over every kept pointer. */
  method PyCheck(raws: seq<string>, parameters: Value) returns (ok: bool)
    ensures ok <==> AllPyResolve(raws, parameters)
  {
    for i := 0 to |raws|
      invariant AllPyResolve(raws[..i], parameters)
    {
      var node := PyResolvePointer(parameters, raws[i]);
      if node.None? { return false; }
    }
    assert raws[..|raws|] == raws;
    return true;
  }

  lemma CheckingKeptIsEnough(block: Block, parameters: Value)
    ensures var l := PyLists(block);
            AllPyResolve(l.hashExclude + l.seedPointers + l.invariantTo, parameters) <==>
                BlockPyResolves(block, parameters)
  {
    var l := PyLists(block);
    var kept := l.hashExclude + l.seedPointers + l.invariantTo;
    KeptIsDeclared(block);
    forall raw
      ensures raw in kept <==> raw in block.hashExclude || raw in block.seedPointers || raw in block.invariantTo
    {
      assert raw in kept <==> raw in SetOf(kept);
    }
  }

  /**
   `resolve_exclusions`: it returns exactly when every declared pointer resolves, and then with the
   lists the Rust resolver comes to.
  */
  method PyResolve(block: Block, parameters: Value) returns (r: Option<PyExclusions>)
    ensures r.Some? <==> BlockPyResolves(block, parameters)
    ensures r.Some? ==> r.value == PyLists(block)
  {
    var hash := PyDedup(block.hashExclude, {});
    var seeds := PyDedup(block.seedPointers, SetOf(hash));
    var invariantTo := PyDedup(block.invariantTo, SetOf(hash) + SetOf(seeds));
    assert PyExclusions(hash, seeds, invariantTo) == PyLists(block) by {
      DedupSpec(block.hashExclude, {});
      assert SetOf(hash) == SetOf(block.hashExclude);
      DedupSpec(block.seedPointers, SetOf(block.hashExclude));
      assert SetOf(hash) + SetOf(seeds) == SetOf(block.hashExclude) + SetOf(block.seedPointers);
    }
    CheckingKeptIsEnough(block, parameters);
    var ok := PyCheck(hash + seeds + invariantTo, parameters);
    r := if ok then Some(PyExclusions(hash, seeds, invariantTo)) else None;
  }

  lemma {:induction false} SameTokens(segments: seq<string>)
    requires UnescapeAll(segments).Some?
    ensures UnescapeAll(segments) == Some(PyUnescapeAll(segments))
    decreases |segments|
  {
    if segments == [] {
      assert PyUnescapeAll(segments) == [];
    } else {
      var rest := UnescapeAll(segments[1..]);
      assert rest.Some? && UnescapeAll(segments).value == [Unescape(segments[0]).value] + rest.value;
      SameTokens(segments[1..]);
      RefusesExactlyMalformed(segments[0]);
      TwoPassesAreOne(segments[0]);
      assert PyUnescapeAll(segments) == [PythonUnescape(segments[0])] + PyUnescapeAll(segments[1..]);
    }
  }

  /**
   Of the pointers whose syntax Rust accepts, Python resolves those that Rust resolves and that spell
   their array indices without a plus.
  */
  lemma PythonResolvesIff(raw: string, parameters: Value)
    requires Tokens(raw).Some? && Indexable(parameters)
    ensures PyResolves(raw, parameters) <==>
            Resolves(raw, parameters) && PlainIndices(parameters, Tokens(raw).value)
  {
    SameTokens(Split(raw[1..], '/'));
    AtIffPlain(parameters, Tokens(raw).value);
  }

  lemma ParsedRaws(pointers: seq<Pointer>, raws: seq<string>)
    requires ParsedList(pointers, raws)
    ensures Raws(pointers) == raws
  {
  }

  // -------------------------------------------------------------------------
  // What precedence gives
  // -------------------------------------------------------------------------

  /** Each declared pointer is kept once, in the first of the three lists that names it. */
  lemma EachPointerHasOneHome(e: Resolved, block: Block, raw: string)
    requires IsResolution(e, block)
    ensures raw in Raws(e.hashExclude) <==> raw in block.hashExclude
    ensures raw in Raws(e.seeds) <==> raw in block.seedPointers && raw !in block.hashExclude
    ensures raw in Raws(e.invariantTo) <==>
      raw in block.invariantTo && raw !in block.hashExclude && raw !in block.seedPointers
    ensures Distinct(Raws(e.hashExclude)) && Distinct(Raws(e.seeds)) && Distinct(Raws(e.invariantTo))
  {
    var h, s := SetOf(block.hashExclude), SetOf(block.seedPointers);
    DedupSpec(block.hashExclude, {});
    DedupSpec(block.seedPointers, h);
    DedupSpec(block.invariantTo, h + s);
    ParsedRaws(e.hashExclude, Dedup(block.hashExclude, {}));
    ParsedRaws(e.seeds, Dedup(block.seedPointers, h));
    ParsedRaws(e.invariantTo, Dedup(block.invariantTo, h + s));
    assert raw in Raws(e.hashExclude) <==> raw in SetOf(Raws(e.hashExclude));
    assert raw in Raws(e.seeds) <==> raw in SetOf(Raws(e.seeds));
    assert raw in Raws(e.invariantTo) <==> raw in SetOf(Raws(e.invariantTo));
  }

  function TokensOf(pointers: seq<Pointer>): seq<Path> {
    seq(|pointers|, i requires 0 <= i < |pointers| => pointers[i].tokens)
  }

  /** Everything removed before the condition is hashed. */
  function RemovedFromConfig(e: Resolved): seq<Path> {
    TokensOf(e.hashExclude) + TokensOf(e.seeds) + TokensOf(e.invariantTo)
  }

  /** A path is removed exactly when some list of the block names it. */
  lemma RemovedIsEverythingNamed(e: Resolved, block: Block, raw: string)
    requires IsResolution(e, block) && Tokens(raw).Some?
    ensures Tokens(raw).value in PathSet(RemovedFromConfig(e)) <==>
      raw in block.hashExclude || raw in block.seedPointers || raw in block.invariantTo
  {
    var p := Parsed(raw);
    EachPointerHasOneHome(e, block, raw);
    TokensListed(e.hashExclude, Dedup(block.hashExclude, {}), raw);
    TokensListed(e.seeds, Dedup(block.seedPointers, SetOf(block.hashExclude)), raw);
    TokensListed(e.invariantTo, Dedup(block.invariantTo, SetOf(block.hashExclude) + SetOf(block.seedPointers)), raw);
  }

  lemma TokensListed(pointers: seq<Pointer>, raws: seq<string>, raw: string)
    requires ParsedList(pointers, raws) && Tokens(raw).Some?
    ensures Tokens(raw).value in TokensOf(pointers) <==> raw in Raws(pointers)
  {
    ParsedRaws(pointers, raws);
    if Tokens(raw).value in TokensOf(pointers) {
      var i :| 0 <= i < |pointers| && TokensOf(pointers)[i] == Tokens(raw).value;
      SameTokensSameText(raws[i], raw);
      assert Raws(pointers)[i] == raw;
    }
    if raw in Raws(pointers) {
      var i :| 0 <= i < |pointers| && Raws(pointers)[i] == raw;
      assert TokensOf(pointers)[i] == Tokens(raw).value;
    }
  }

  /** No declared pointer is the empty path, so pruning never removes the whole document. */
  lemma NeverTheWholeDocument(e: Resolved, block: Block)
    requires IsResolution(e, block)
    ensures [] !in PathSet(RemovedFromConfig(e))
  {
  }
}
