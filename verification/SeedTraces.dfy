/**
 Is a value that is declared out of every hash really out of every hash?

 `hash_exclude` is described as removed from every hash. But the execution hash
 takes each seed's whole value, and a pointer that spells an index with a plus
 removes nothing. The excluded values leave no trace exactly when every excluded
 position is removed, by that pointer or another, and no seed leads through an
 excluded position, or is led through by one.
*/
module SeedTraces {
  import opened Wrappers
  import opened Decimal
  import opened TextOrder
  import opened Json
  import opened Canonical
  import opened Pointers
  import opened PruneForms
  import opened Exclusions
  import opened Identity
  import opened PointerSyntax
  import opened Sequences
  import opened DocumentEdits

  /** Every pointer of the three lists names a node of the document. */
  ghost predicate AllResolveIn(v: Value, e: Resolved) {
    AllIn(v, PathSet(RemovedFromConfig(e)))
  }

  /** ... and spells the indices it uses plainly. */
  ghost predicate AllPresentIn(v: Value, e: Resolved) {
    forall r :: r in PathSet(RemovedFromConfig(e)) ==> At(v, r).Some?
  }

  /** The pointers that are declared out of every hash. */
  function Excluding(e: Resolved): set<Path> {
    PathSet(TokensOf(e.hashExclude)) + PathSet(TokensOf(e.invariantTo))
  }

  lemma ExcludingIsRemoved(e: Resolved)
    ensures Excluding(e) <= PathSet(RemovedFromConfig(e))
    ensures forall i :: 0 <= i < |e.seeds| ==> e.seeds[i].tokens in PathSet(RemovedFromConfig(e))
  {
    forall i | 0 <= i < |e.seeds|
      ensures e.seeds[i].tokens in PathSet(RemovedFromConfig(e))
    {
      assert TokensOf(e.seeds)[i] in TokensOf(e.seeds) && TokensOf(e.seeds)[i] in RemovedFromConfig(e);
    }
  }

  /** The positions those pointers lead to. */
  ghost function OutOfEveryHash(v: Value, e: Resolved): set<Path>
    requires AllResolveIn(v, e)
  {
    ExcludingIsRemoved(e);
    set r | r in Excluding(e) :: PlainPath(v, r)
  }

  /** One path leads through the other. */
  predicate Nested(a: Path, b: Path) {
    a <= b || b <= a
  }

  /** The pointer leads through the position, or the other way round. */
  predicate NestedWith(v: Value, x: Path, t: Path) {
    Resolve(v, t).Some? && Nested(x, PlainPath(v, t))
  }

  ghost predicate SomeNested(v: Value, positions: set<Path>, seeds: seq<Pointer>) {
    exists i, x :: 0 <= i < |seeds| && x in positions && NestedWith(v, x, seeds[i].tokens)
  }

  /** Some seed's position is nested with one that is declared to be out of every hash. */
  ghost predicate SeedNested(v: Value, e: Resolved)
    requires AllResolveIn(v, e)
  {
    SomeNested(v, OutOfEveryHash(v, e), e.seeds)
  }

  /** Pruning takes every position that is declared to be out of every hash. */
  ghost predicate AllRemoved(v: Value, e: Resolved)
    requires AllResolveIn(v, e)
  {
    forall x :: x in OutOfEveryHash(v, e) ==> Covered(x, PathSet(RemovedFromConfig(e)))
  }

  /** Pointers that spell their indices plainly name what they lead to, and remove it. */
  lemma PlainPointersRemove(v: Value, e: Resolved)
    requires Indexable(v) && AllPresentIn(v, e)
    ensures AllResolveIn(v, e) && OutOfEveryHash(v, e) == Excluding(e) && AllRemoved(v, e)
  {
    ExcludingIsRemoved(e);
    forall r | r in PathSet(RemovedFromConfig(e))
      ensures Resolve(v, r).Some? && PlainPath(v, r) == r
    {
      PlainPathIsPlain(v, r);
    }
    forall x | x in Excluding(e)
      ensures Covered(x, PathSet(RemovedFromConfig(e)))
    {
      assert x <= x;
    }
  }

  // -------------------------------------------------------------------------
  // Seeds that are not nested show nothing
  // -------------------------------------------------------------------------

  /** Documents that agree outside `remove` show the same node at a path no removed path is nested with. */
  lemma {:induction false} SameNodeWhereNotNested(v: Value, w: Value, remove: set<Path>, t: Path)
    requires AgreeOutside(v, w, remove) && forall r :: r in remove ==> !Nested(r, t)
    ensures At(v, t) == At(w, t)
    decreases |t|
  {
    assert [] !in remove by { assert Nested([], t); }
    if t == [] {
      assert forall r :: r in remove ==> Nested(r, t);
      assert remove == {};
      PrunedEqualIffAgree(v, w, remove);
      PruneNothing(v);
      PruneNothing(w);
    } else {
      AgreementSplits(v, w, remove);
      assert [t[0]] !in remove by { assert [t[0]] <= t; }
      assert ChildrenAgree(v, w, t[0], Below(remove, t[0]));
      if Child(v, t[0]).Some? {
        SameNodeWhereNotNested(Child(v, t[0]).value, Child(w, t[0]).value, Below(remove, t[0]), t[1..]);
      }
    }
  }

  /** And a pointer there leads to it in both. */
  lemma {:induction false} SameResolution(v: Value, w: Value, remove: set<Path>, t: Path)
    requires Resolve(v, t).Some?
    requires AgreeOutside(v, w, remove) && forall r :: r in remove ==> !Nested(r, PlainPath(v, t))
    ensures Resolve(w, t) == At(w, PlainPath(v, t))
    decreases |t|
  {
    if t != [] {
      var k, rest := PlainToken(v, t[0]), PlainPath(Step(v, t[0]).value, t[1..]);
      assert PlainPath(v, t) == [k] + rest;
      assert [] !in remove by { assert Nested([], PlainPath(v, t)); }
      AgreementSplits(v, w, remove);
      assert [k] !in remove by { assert [k] <= PlainPath(v, t); }
      assert ChildrenAgree(v, w, k, Below(remove, k));
      PlainStep(v, t[0]);
      SameStep(v, w, t[0]);
      forall r | r in Below(remove, k)
        ensures !Nested(r, rest)
      {
        assert [k] + r in remove by { var u :| u in remove && |u| > 0 && u[0] == k && u[1..] == r; assert u == [k] + r;
            }
        assert !Nested([k] + r, [k] + rest);
        NestedBehind(k, r, rest);
      }
      SameResolution(Step(v, t[0]).value, Child(w, k).value, Below(remove, k), t[1..]);
    }
  }

  lemma NestedBehind(k: string, a: Path, b: Path)
    ensures Nested([k] + a, [k] + b) <==> Nested(a, b)
  {
    assert ([k] + a)[1..] == a && ([k] + b)[1..] == b;
    assert [k] + a <= [k] + b ==> a <= b;
    assert [k] + b <= [k] + a ==> b <= a;
  }

  lemma SameStep(v: Value, w: Value, token: string)
    requires Step(v, token).Some? && KindOf(Some(v)) == KindOf(Some(w)) && Child(w, PlainToken(v, token)).Some?
    ensures Step(w, token) == Child(w, PlainToken(v, token))
  {
    if v.Arr? { IndexOfNumeral(ArrayIndex(token).value, |w.items|); }
  }

  /** Another document, which differs from the first only where it is declared out of every hash. */
  ghost predicate Alike(nfc: string -> string, p: Value, q: Value, e: Resolved)
    requires AllResolveIn(p, e)
  {
    AllResolveIn(q, e) && Indexable(q) && Canon(nfc, q).Ok? && AgreeOutside(p, q, OutOfEveryHash(p, e))
  }

  /** Whatever the excluded positions hold, the seeds come out the same. */
  ghost predicate SeedsShowNothing(nfc: string -> string, p: Value, e: Resolved)
    requires AllResolveIn(p, e)
  {
    forall q :: Alike(nfc, p, q, e) ==> SameSeeds(nfc, p, q, e)
  }

  lemma UnnestedSeedsShowNothing(nfc: string -> string, p: Value, e: Resolved)
    requires AllResolveIn(p, e) && !SeedNested(p, e)
    ensures SeedsShowNothing(nfc, p, e)
  {
    ExcludingIsRemoved(e);
    forall q | Alike(nfc, p, q, e)
      ensures SameSeeds(nfc, p, q, e)
    {
      forall i | 0 <= i < |e.seeds|
        ensures SameSeed(nfc, p, q, e.seeds[i].tokens)
      {
        var t := e.seeds[i].tokens;
        PlainPathFinds(p, t);
        assert forall x :: x in OutOfEveryHash(p, e) ==> !NestedWith(p, x, t);
        SameNodeWhereNotNested(p, q, OutOfEveryHash(p, e), PlainPath(p, t));
        SameResolution(p, q, OutOfEveryHash(p, e), t);
      }
    }
  }

  // -------------------------------------------------------------------------
  // Nested seeds show a change
  // -------------------------------------------------------------------------

  /** Arrays have room for one more item. */
  ghost predicate Roomy(v: Value) {
    forall w :: Inside(w, v) && w.Arr? ==> |w.items| < USIZE_LIMIT - 1
  }

  lemma {:induction false} RoomyAt(v: Value, x: Path)
    requires Roomy(v) && At(v, x).Some?
    ensures Roomy(At(v, x).value)
    decreases |x|
  {
    if x != [] {
      forall w | Inside(w, Child(v, x[0]).value)
        ensures Inside(w, v)
      {
        if v.Arr? { assert Inside(w, v.items[ValueOf(x[0])]); }
      }
      RoomyAt(Child(v, x[0]).value, x[1..]);
    }
  }

  /** The document changed at or below an excluded position is alike. */
  lemma PutIsAlike(nfc: string -> string, p: Value, e: Resolved, x: Path, r: Path, b: Value)
    requires AllResolveIn(p, e) && Indexable(p) && Canon(nfc, p).Ok? && At(p, x).Some?
    requires r in OutOfEveryHash(p, e) && r <= x
    requires ResolvesMore(At(p, x).value, b) && Indexable(b) && Canon(nfc, b).Ok?
    ensures Alike(nfc, p, PutAt(p, x, b), e)
  {
    forall u | u in PathSet(RemovedFromConfig(e))
      ensures Resolve(PutAt(p, x, b), u).Some?
    {
      PutKeepsResolving(p, x, b, u);
    }
    PutStaysIndexable(p, x, b);
    PutStaysWritable(nfc, p, x, b);
    PutAgreesOutside(p, x, b, r, OutOfEveryHash(p, e));
  }

  lemma SeedChanges(nfc: string -> string, p: Value, x: Path, b: Value, t: Path)
    requires At(p, x).Some? && Resolve(p, t).Some? && PlainPath(p, t) <= x && Canon(nfc, p).Ok? && Canon(nfc, b).Ok?
    requires Normal(nfc, b) != Normal(nfc, At(p, x).value)
    ensures !SameSeed(nfc, p, PutAt(p, x, b), t)
  {
    var n := PlainPath(p, t);
    PlainPathFinds(p, t);
    PutKeepsThePath(p, x, b, t);
    PutSeenFromAbove(p, x, b, n);
    WritableNode(nfc, p, n);
    PutChangesNormal(nfc, At(p, n).value, x[|n|..], b);
  }

  lemma NestedSeedsShowSomething(nfc: string -> string, p: Value, e: Resolved)
    requires AllResolveIn(p, e) && Roomy(p) && Canon(nfc, p).Ok? && SeedNested(p, e)
    ensures !SeedsShowNothing(nfc, p, e)
  {
    ExcludingIsRemoved(e);
    var i, r :| 0 <= i < |e.seeds| && r in OutOfEveryHash(p, e) && NestedWith(p, r, e.seeds[i].tokens);
    var t := e.seeds[i].tokens;
    var n := PlainPath(p, t);
    var x := if r <= n then n else r;
    var u :| u in Excluding(e) && r == PlainPath(p, u);
    PlainPathFinds(p, t);
    PlainPathFinds(p, u);
    var a := At(p, x).value;
    RoomyAt(p, x);
    WritableNode(nfc, p, x);
    TweakIndexable(a);
    TweakChangesNormal(nfc, a);
    assert ResolvesMore(a, Tweak(a)) by {
      forall w | Resolve(a, w).Some?
        ensures Resolve(Tweak(a), w).Some?
      {
        TweakKeepsResolving(a, w);
      }
    }
    PutIsAlike(nfc, p, e, x, r, Tweak(a));
    SeedChanges(nfc, p, x, Tweak(a), t);
    assert !SameSeeds(nfc, p, PutAt(p, x, Tweak(a)), e);
  }

  // -------------------------------------------------------------------------
  // The bytes that are hashed
  // -------------------------------------------------------------------------

  lemma SeedsAreWritable(nfc: string -> string, v: Value, e: Resolved)
    requires AllResolveIn(v, e) && Canon(nfc, v).Ok?
    ensures SeedsWritable(nfc, v, e)
  {
    forall i | 0 <= i < |e.seeds|
      ensures Canon(nfc, SeedValue(v, e.seeds[i].tokens)).Ok?
    {
      assert TokensOf(e.seeds)[i] == e.seeds[i].tokens && TokensOf(e.seeds)[i] in RemovedFromConfig(e);
      WritableWhereResolved(nfc, v, e.seeds[i].tokens);
    }
  }

  /** Everything else that goes into the hashes of a run. */
  datatype Rest = Rest(data: seq<H.Dataset>, configHash: string, code: Option<H.Code>, envHash: string)

  /** The bytes both hashes are taken of are the same for the two documents. */
  ghost predicate SameHashInput(nfc: string -> string, p: Value, q: Value, e: Resolved, rest: Rest) {
    && ConfigInput(nfc, p, e, rest.data) == ConfigInput(nfc, q, e, rest.data)
    && SeedsWritable(nfc, p, e) && SeedsWritable(nfc, q, e)
    && ExecutionInput(nfc, p, e, rest.configHash, rest.code, rest.envHash)
       == ExecutionInput(nfc, q, e, rest.configHash, rest.code, rest.envHash)
  }

  /** Whatever the excluded positions hold, the hashed bytes come out the same. */
  ghost predicate LeavesNoTrace(nfc: string -> string, p: Value, e: Resolved, rest: Rest)
    requires AllResolveIn(p, e)
  {
    forall q :: Alike(nfc, p, q, e) ==> SameHashInput(nfc, p, q, e, rest)
  }

  lemma AgreeOutsideRemoved(p: Value, q: Value, e: Resolved)
    requires AllResolveIn(p, e) && AllRemoved(p, e) && AgreeOutside(p, q, OutOfEveryHash(p, e))
    ensures AgreeOutside(p, q, PathSet(RemovedFromConfig(e)))
  {
    var removed := PathSet(RemovedFromConfig(e));
    forall t | !Covered(t, removed)
      ensures !Covered(t, OutOfEveryHash(p, e))
    {
      forall x | x in OutOfEveryHash(p, e)
        ensures !(x <= t)
      {
        var u :| u in removed && u <= x;
        assert x <= t ==> u <= t;
      }
    }
  }

  /** Where everything excluded is removed, the hashed bytes are the same exactly when the seeds are. */
  lemma HashInputShowsSeeds(nfc: string -> string, p: Value, q: Value, e: Resolved, block: Block, rest: Rest)
    requires IsResolution(e, block) && AllResolveIn(p, e) && Canon(nfc, p).Ok? && Alike(nfc, p, q, e)
    requires AllRemoved(p, e)
    ensures SameHashInput(nfc, p, q, e, rest) <==> SameSeeds(nfc, p, q, e)
  {
    SeedsAreWritable(nfc, p, e);
    SeedsAreWritable(nfc, q, e);
    AgreeOutsideRemoved(p, q, e);
    ReplicatesDifferInTheirSeeds(nfc, p, q, e, block, rest.data, rest.configHash, rest.code, rest.envHash);
  }

  /** An excluded position that nothing removes shows in the condition. */
  lemma KeptPositionShows(nfc: string -> string, p: Value, e: Resolved, rest: Rest)
    requires Plentiful(nfc) && AllResolveIn(p, e) && Roomy(p) && Indexable(p) && Canon(nfc, p).Ok?
    requires !AllRemoved(p, e)
    ensures !LeavesNoTrace(nfc, p, e, rest)
  {
    ExcludingIsRemoved(e);
    var removed := PathSet(RemovedFromConfig(e));
    var x :| x in OutOfEveryHash(p, e) && !Covered(x, removed);
    var u :| u in Excluding(e) && x == PlainPath(p, u);
    PlainPathFinds(p, u);
    var a := At(p, x).value;
    var q := PutAt(p, x, Extend(nfc, a));
    UncoveredShows(nfc, p, x, removed);
    assert Alike(nfc, p, q, e) by {
      RoomyAt(p, x);
      WritableNode(nfc, p, x);
      ExtendIndexable(nfc, a);
      ExtendKeepsResolving(nfc, a);
      ExtendedShows(nfc, a, {});
      PutIsAlike(nfc, p, e, x, x, Extend(nfc, a));
    }
    assert ConfigInput(nfc, p, e, rest.data) != ConfigInput(nfc, q, e, rest.data) by {
      PruneStaysWritable(nfc, p, removed);
      PruneStaysWritable(nfc, q, removed);
      SameConditionIff(nfc, p, e, rest.data, q, e, rest.data);
    }
  }

  /**
   The values declared out of every hash leave no trace in the hashed bytes if and only if every
   position they are at is removed, and none is nested with a seed's. Of pointers that are spelled
   plainly the first holds already; for others some normalized keys have to be left over.
  */
  lemma NoTraceIff(nfc: string -> string, p: Value, e: Resolved, block: Block, rest: Rest)
    requires IsResolution(e, block) && AllResolveIn(p, e) && Canon(nfc, p).Ok? && Roomy(p)
    requires AllRemoved(p, e) || Plentiful(nfc)
    ensures LeavesNoTrace(nfc, p, e, rest) <==> AllRemoved(p, e) && !SeedNested(p, e)
  {
    assert Indexable(p);
    if !AllRemoved(p, e) {
      KeptPositionShows(nfc, p, e, rest);
    } else {
      forall q | Alike(nfc, p, q, e)
        ensures SameHashInput(nfc, p, q, e, rest) <==> SameSeeds(nfc, p, q, e)
      {
        HashInputShowsSeeds(nfc, p, q, e, block, rest);
      }
      assert LeavesNoTrace(nfc, p, e, rest) <==> SeedsShowNothing(nfc, p, e);
      if SeedNested(p, e) {
        NestedSeedsShowSomething(nfc, p, e);
      } else {
        UnnestedSeedsShowNothing(nfc, p, e);
      }
    }
  }

  predicate AllApart(paths: set<Path>, seeds: seq<Pointer>) {
    forall i, r :: 0 <= i < |seeds| && r in paths ==> !Nested(r, seeds[i].tokens)
  }

  /** No seed pointer leads through a pointer that excludes, or the other way round. */
  ghost predicate PointersApart(e: Resolved) {
    AllApart(Excluding(e), e.seeds)
  }

  lemma PlainSeed(v: Value, e: Resolved, i: nat)
    requires Indexable(v) && AllPresentIn(v, e) && i < |e.seeds|
    ensures Resolve(v, e.seeds[i].tokens).Some? && PlainPath(v, e.seeds[i].tokens) == e.seeds[i].tokens
  {
    ExcludingIsRemoved(e);
    PlainPathIsPlain(v, e.seeds[i].tokens);
  }

  predicate IsPlain(v: Value, t: Path) {
    Resolve(v, t).Some? && PlainPath(v, t) == t
  }

  /** Where seed pointers spell the positions they lead to, the pointers are nested as the positions are. */
  lemma PlainlyNested(v: Value, paths: set<Path>, seeds: seq<Pointer>)
    requires forall i :: 0 <= i < |seeds| ==> IsPlain(v, seeds[i].tokens)
    ensures SomeNested(v, paths, seeds) <==> !AllApart(paths, seeds)
  {
    forall i, x | 0 <= i < |seeds| && x in paths
      ensures NestedWith(v, x, seeds[i].tokens) <==> Nested(x, seeds[i].tokens)
    {
      assert IsPlain(v, seeds[i].tokens);
    }
  }

  lemma PlainSeedsNested(v: Value, e: Resolved)
    requires Indexable(v) && AllPresentIn(v, e)
    ensures AllResolveIn(v, e) && (SeedNested(v, e) <==> !PointersApart(e))
  {
    PlainPointersRemove(v, e);
    forall i | 0 <= i < |e.seeds|
      ensures IsPlain(v, e.seeds[i].tokens)
    {
      PlainSeed(v, e, i);
    }
    PlainlyNested(v, Excluding(e), e.seeds);
  }

  /** For pointers that are spelled plainly: if and only if no seed pointer is nested with one that excludes. */
  lemma NoTraceIffNotNested(nfc: string -> string, p: Value, e: Resolved, block: Block, rest: Rest)
    requires IsResolution(e, block) && AllPresentIn(p, e) && Canon(nfc, p).Ok? && Roomy(p)
    ensures AllResolveIn(p, e) && (LeavesNoTrace(nfc, p, e, rest) <==> PointersApart(e))
  {
    assert Indexable(p);
    PlainPointersRemove(p, e);
    PlainSeedsNested(p, e);
    NoTraceIff(nfc, p, e, block, rest);
  }

  // An object of seeds "a" with a note "b"

  function SeedsWithNote(): Value {
    Obj(map["a" := Obj(map["b" := Null])])
  }

  function NoteExcluded(): Block {
    Block(["/a/b"], ["/a"], [])
  }

  function NoteResolved(): Resolved {
    Resolved([Pointer("/a/b", ["a", "b"])], [Pointer("/a", ["a"])], [])
  }

  lemma NoteResolves()
    ensures IsResolution(NoteResolved(), NoteExcluded())
  {
    PointerTokens();
    assert Dedup(["/a/b"], {}) == ["/a/b"];
    assert Dedup(["/a"], SetOf(["/a/b"])) == ["/a"];
  }

  lemma NoteIsNested()
    ensures ["a", "b"] in Excluding(NoteResolved()) && Nested(["a", "b"], NoteResolved().seeds[0].tokens)
    ensures forall t :: t in RemovedFromConfig(NoteResolved()) ==> t == ["a", "b"] || t == ["a"]
  {
    var e := NoteResolved();
    assert TokensOf(e.hashExclude)[0] == ["a", "b"];
    assert ["a", "b"] in TokensOf(e.hashExclude);
  }

  lemma NoteIsPresent()
    ensures AllPresentIn(SeedsWithNote(), NoteResolved())
    ensures AllResolve(NoteExcluded().hashExclude, SeedsWithNote()) &&
        AllResolve(NoteExcluded().seedPointers, SeedsWithNote())
  {
    NoArrays();
    Present(SeedsWithNote());
    NoteIsNested();
    PointerTokens();
  }

  lemma NoteIsWritable(nfc: string -> string)
    ensures Canon(nfc, SeedsWithNote()).Ok?
  {
    OneMemberIsWritable(nfc, "b", Null);
    OneMemberIsWritable(nfc, "a", Obj(map["b" := Null]));
  }

  /** The note is in `hash_exclude`, and the object is a seed: the block resolves, and the note leaves its trace. */
  lemma NoteInsideASeed(nfc: string -> string, rest: Rest)
    ensures var block, p, e := NoteExcluded(), SeedsWithNote(), NoteResolved();
      && AllResolve(block.hashExclude, p) && AllResolve(block.seedPointers, p) && IsResolution(e, block)
      && AllPresentIn(p, e) && AllResolveIn(p, e) && Canon(nfc, p).Ok? && !LeavesNoTrace(nfc, p, e, rest)
  {
    NoteIsPresent();
    NoteIsWritable(nfc);
    NoteResolves();
    NoteIsNested();
    NoArrays();
    NoTraceIffNotNested(nfc, SeedsWithNote(), NoteResolved(), NoteExcluded(), rest);
  }

  lemma Present(p: Value)
    requires p == Obj(map["a" := Obj(map["b" := Null])]) && Indexable(p)
    ensures At(p, ["a"]).Some? && At(p, ["a", "b"]).Some?
    ensures Resolve(p, ["a"]).Some? && Resolve(p, ["a", "b"]).Some?
  {
    var inner := Obj(map["b" := Null]);
    assert ["a", "b"][1..] == ["b"] && ["b"][1..] == [] && ["a"][1..] == [];
    assert At(inner, ["b"]) == Some(Null);
    PositionResolves(p, ["a", "b"]);
    PositionResolves(p, ["a"]);
  }

  lemma PointerTokens()
    ensures Tokens("/a") == Some(["a"]) && Tokens("/a/b") == Some(["a", "b"])
  {
    SplitWithout("a", '/');
    SplitWithout("b", '/');
    SplitAtFirst("a", '/', "b");
    assert "a" + ['/'] + "b" == "a/b";
    assert "/a"[1..] == "a" && "/a/b"[1..] == "a/b";
    OneLetter('a');
    OneLetter('b');
    assert UnescapeAll(["a"]) == Some(["a"] + []) by { assert ["a"][1..] == []; }
    assert UnescapeAll(["b"]) == Some(["b"] + []) by { assert ["b"][1..] == []; }
    assert UnescapeAll(["a", "b"]) == Some(["a"] + ["b"]) by { assert ["a", "b"][1..] == ["b"]; }
    assert Split("a/b", '/') == ["a", "b"];
    assert ["a"] + [] == ["a"] && ["a"] + ["b"] == ["a", "b"];
  }

  lemma OneLetter(c: char)
    requires c != '~'
    ensures Unescape([c]) == Some([c])
  {
    assert [c][1..] == "" && Unescape("") == Some("") && [c] + "" == [c];
  }

  lemma OneMemberIsWritable(nfc: string -> string, k: string, c: Value)
    requires Canon(nfc, c).Ok?
    ensures Canon(nfc, Obj(map[k := c])).Ok?
  {
    var v := Obj(map[k := c]);
    if Canon(nfc, v).Err? { var j := FailingMember(nfc, v, SortedKeys(NfcKeys(nfc, v.fields)), 0); }
  }

  lemma NoArrays()
    ensures forall w :: Inside(w, Obj(map["a" := Obj(map["b" := Null])])) ==> !w.Arr?
  {
    assert forall w :: Inside(w, Null) ==> w == Null;
    assert forall w :: Inside(w, Obj(map["b" := Null])) ==> !w.Arr?;
  }

  // An array "a" of two items, the second excluded as "+1"

  function TwoItems(): Value {
    Obj(map["a" := Arr([Null, Null])])
  }

  function SecondResolved(): Resolved {
    Resolved([Pointer("/a/+1", ["a", "+1"])], [], [])
  }

  lemma SecondIsKept()
    ensures AllResolveIn(TwoItems(), SecondResolved()) && !AllRemoved(TwoItems(), SecondResolved())
    ensures Tokens("/a/+1") == Some(["a", "+1"])
  {
    var p, e, t := TwoItems(), SecondResolved(), ["a", "+1"];
    SignedPath();
    assert TokensOf(e.hashExclude)[0] == t && t in PathSet(RemovedFromConfig(e));
    assert forall u :: u in PathSet(RemovedFromConfig(e)) ==> u == t;
    var x := PlainPath(p, t);
    assert x in OutOfEveryHash(p, e);
    assert x[1] == "1" && x[1] != t[1];
    assert !Covered(x, PathSet(RemovedFromConfig(e)));
  }

  lemma SignedPath()
    ensures Resolve(TwoItems(), ["a", "+1"]).Some? && PlainPath(TwoItems(), ["a", "+1"]) == ["a", "1"]
    ensures Tokens("/a/+1") == Some(["a", "+1"])
  {
    var p, t := TwoItems(), ["a", "+1"];
    assert t[1..] == ["+1"] && ["+1"][1..] == [];
    assert "+1"[1..] == "1" && ValueOf("1") == 1 && ArrayIndex("+1") == Some(1);
    var inner := p.fields["a"];
    assert Step(inner, "+1") == Some(Null) && PlainToken(inner, "+1") == "1";
    assert PlainPath(inner, ["+1"]) == ["1"] + PlainPath(Null, []);
    SplitWithout("a", '/');
    SplitWithout("+1", '/');
    SplitAtFirst("a", '/', "+1");
    assert "a" + ['/'] + "+1" == "a/+1" && "/a/+1"[1..] == "a/+1";
    OneLetter('a');
    assert Unescape("+1") == Some("+1") by { OneLetter('1'); assert ['+'] + "1" == "+1"; }
    assert UnescapeAll(["+1"]) == Some(["+1"] + []);
    assert UnescapeAll(t) == Some(["a"] + ["+1"]);
    assert Split("a/+1", '/') == t;
  }

  lemma TwoItemsAreWritable(nfc: string -> string)
    ensures Canon(nfc, TwoItems()).Ok?
  {
    var inner := Arr([Null, Null]);
    if Canon(nfc, inner).Err? { var j := FailingItem(nfc, inner, 0); }
    OneMemberIsWritable(nfc, "a", inner);
  }

  lemma TwoItemsAreRoomy()
    ensures Roomy(TwoItems())
  {
    assert forall w :: Inside(w, Null) ==> w == Null;
    assert forall w :: Inside(w, Arr([Null, Null])) && w.Arr? ==> |w.items| == 2;
  }

  /** No seed, one exclusion that resolves, and its value stays in the bytes the condition is hashed from. */
  lemma SignedExclusionShows(nfc: string -> string, rest: Rest)
    requires Plentiful(nfc)
    ensures IsResolution(SecondResolved(), Block(["/a/+1"], [], []))
    ensures AllResolveIn(TwoItems(), SecondResolved()) && !LeavesNoTrace(nfc, TwoItems(), SecondResolved(), rest)
  {
    SecondIsKept();
    TwoItemsAreWritable(nfc);
    TwoItemsAreRoomy();
    assert Dedup(["/a/+1"], {}) == ["/a/+1"] && Dedup([], SetOf(["/a/+1"])) == [];
    NoTraceIff(nfc, TwoItems(), SecondResolved(), Block(["/a/+1"], [], []), rest);
  }
}
