/**
 How the two implementations prune, and what follows for the pointers a run
 declares: the order and duplication of pointers is immaterial, a shallow pointer
 subsumes a deeper one, and a pointer that resolves is applied exactly when its
 array indices carry no plus sign.
*/
module PruneForms {
  import opened Wrappers
  import opened Decimal
  import opened Json
  import opened Pointers

  // -------------------------------------------------------------------------
  // The Rust rebuild: full paths and a path stack
  // -------------------------------------------------------------------------

  /** What remains of the removed paths that pass through `at`. */
  ghost function Relative(remove: set<Path>, at: Path): set<Path> {
    set q | q in remove && at <= q :: q[|at|..]
  }

  lemma RelativeStep(remove: set<Path>, at: Path, token: string)
    ensures Below(Relative(remove, at), token) == Relative(remove, at + [token])
    ensures [token] in Relative(remove, at) <==> at + [token] in remove
  {
    forall r
      ensures r in Below(Relative(remove, at), token) <==> r in Relative(remove, at + [token])
    {
      if r in Below(Relative(remove, at), token) {
        var m :| m in Relative(remove, at) && |m| > 0 && m[0] == token && m[1..] == r;
        var q :| q in remove && at <= q && q[|at|..] == m;
        assert q == at + m && m == [token] + r && at + [token] <= q && q[|at + [token]|..] == r;
      }
      if r in Relative(remove, at + [token]) {
        var q :| q in remove && at + [token] <= q && q[|at + [token]|..] == r;
        assert q[|at|..] == [token] + r && q[|at|..] in Relative(remove, at);
      }
    }
    if [token] in Relative(remove, at) {
      var q :| q in remove && at <= q && q[|at|..] == [token];
      assert q == at + [token];
    }
    if at + [token] in remove {
      assert (at + [token])[|at|..] == [token];
    }
  }

  lemma RelativeToRoot(remove: set<Path>)
    ensures Relative(remove, []) == remove
  {
    assert forall q: Path :: q[0..] == q;
  }

  /** The path from the root to the node being rebuilt. */
  class PathStack {
    var tokens: Path

    constructor ()
      ensures tokens == []
    {
      tokens := [];
    }

    method Push(token: string)
      modifies this
      ensures tokens == old(tokens) + [token]
    {
      tokens := tokens + [token];
    }

    method Pop()
      requires tokens != []
      modifies this
      ensures tokens == old(tokens)[..|old(tokens)| - 1]
    {
      tokens := tokens[..|tokens| - 1];
    }

    /** Rebuilds a node, visiting the members in any order. The path is as before when it returns. */
    method Rebuild(value: Value, remove: set<Path>) returns (r: Value)
      modifies this
      ensures tokens == old(tokens)
      ensures r == Prune(value, Relative(remove, old(tokens)))
      decreases value, 1
    {
      match value {
        case Obj(_) => r := RebuildObject(value, remove);
        case Arr(_) => r := RebuildArray(value, remove);
        case _ => r := value;
      }
    }

    method RebuildObject(value: Value, remove: set<Path>) returns (r: Value)
      requires value.Obj?
      modifies this
      ensures tokens == old(tokens)
      ensures r == Prune(value, Relative(remove, old(tokens)))
      decreases value, 0
    {
      var out: map<string, Value> := map[];
      var todo := value.fields.Keys;
      ghost var rel := Relative(remove, tokens);
      while todo != {}
        invariant tokens == old(tokens) && todo <= value.fields.Keys
        invariant forall k :: k in out <==> k in value.fields && k !in todo && [k] !in rel
        invariant forall k :: k in out ==> out[k] == Prune(value.fields[k], Below(rel, k))
        decreases |todo|
      {
        var key :| key in todo;
        todo := todo - {key};
        RelativeStep(remove, tokens, key);
        Push(key);
        if tokens !in remove {
          var item := Rebuild(value.fields[key], remove);
          out := out[key := item];
        }
        Pop();
      }
      assert out == Prune(value, rel).fields;
      return Obj(out);
    }

    method RebuildArray(value: Value, remove: set<Path>) returns (r: Value)
      requires value.Arr?
      modifies this
      ensures tokens == old(tokens)
      ensures r == Prune(value, Relative(remove, old(tokens)))
      decreases value, 0
    {
      var out: seq<Value> := [];
      ghost var rel := Relative(remove, tokens);
      for i := 0 to |value.items|
        invariant tokens == old(tokens)
        invariant out + PruneItems(value, rel, i) == PruneItems(value, rel, 0)
      {
        RelativeStep(remove, tokens, Numeral(i));
        PrunedItemStep(value, rel, i);
        ghost var rest := PruneItems(value, rel, i + 1);
        Push(Numeral(i));
        if tokens !in remove {
          var item := Rebuild(value.items[i], remove);
          assert out + PruneItems(value, rel, i) == out + [item] + rest;
          out := out + [item];
        }
        Pop();
      }
      return Arr(out);
    }
  }

  /** Collects the paths of the pointers and rebuilds from the root. */
  method PruneDocument(root: Value, pointers: seq<Path>) returns (r: Value)
    ensures r == Prune(root, PathSet(pointers))
  {
    var paths: set<Path> := {};
    for i := 0 to |pointers|
      invariant paths == PathSet(pointers[..i])
    {
      paths := paths + {pointers[i]};
      assert pointers[..i + 1] == pointers[..i] + [pointers[i]];
    }
    assert pointers[..|pointers|] == pointers;
    var stack := new PathStack();
    RelativeToRoot(paths);
    r := stack.Rebuild(root, paths);
  }

  function PathSet(pointers: seq<Path>): set<Path> {
    set p | p in pointers
  }

  // -------------------------------------------------------------------------
  // Nothing below a removed node matters
  // -------------------------------------------------------------------------

  lemma {:induction false} PruneNothing(v: Value)
    ensures Prune(v, {}) == v
    decreases v
  {
    match v
    case Obj(fields) =>
      forall k | k in fields
        ensures Prune(fields[k], Below({}, k)) == fields[k]
      {
        assert Below({}, k) == {};
        PruneNothing(fields[k]);
      }
      assert Prune(v, {}).fields == fields;
    case Arr(items) => PruneNoItems(v, 0);
    case _ =>
  }

  lemma {:induction false} PruneNoItems(v: Value, i: nat)
    requires v.Arr? && i <= |v.items|
    ensures PruneItems(v, {}, i) == v.items[i..]
    decreases v, |v.items| - i
  {
    if i < |v.items| {
      assert Below({}, Numeral(i)) == {};
      PruneNothing(v.items[i]);
      PruneNoItems(v, i + 1);
    }
  }

  /** Adding a pointer below one that is already there changes nothing. */
  lemma {:induction false} ShallowSubsumesDeep(v: Value, remove: set<Path>, shallow: Path, deep: Path)
    requires shallow in remove && shallow <= deep && shallow != []
    ensures Prune(v, remove + {deep}) == Prune(v, remove)
    decreases v, 1, 0
  {
    var more := remove + {deep};
    assert forall k: string :: [k] in more ==> [k] in remove by {
      forall k: string | [k] in more ensures [k] in remove {
        if [k] == deep { assert shallow == [k]; }
      }
    }
    match v
    case Obj(fields) =>
      forall k | k in fields && [k] !in remove
        ensures Prune(fields[k], Below(more, k)) == Prune(fields[k], Below(remove, k))
      {
        SubsumedBelow(fields[k], remove, shallow, deep, k);
      }
      assert Prune(v, more).fields == Prune(v, remove).fields;
    case Arr(items) => SubsumedItems(v, remove, shallow, deep, 0);
    case _ =>
  }

  lemma {:induction false} SubsumedBelow(v: Value, remove: set<Path>, shallow: Path, deep: Path, k: string)
    requires shallow in remove && shallow <= deep && shallow != [] && [k] !in remove
    ensures Prune(v, Below(remove + {deep}, k)) == Prune(v, Below(remove, k))
    decreases v, 2, 0
  {
    if deep[0] == k {
      assert shallow == [k] + shallow[1..];
      assert |shallow| == 1 ==> shallow == [k];
      assert shallow[1..] in Below(remove, k) && shallow[1..] <= deep[1..];
      assert Below(remove + {deep}, k) == Below(remove, k) + {deep[1..]};
      ShallowSubsumesDeep(v, Below(remove, k), shallow[1..], deep[1..]);
    } else {
      assert Below(remove + {deep}, k) == Below(remove, k);
    }
  }

  lemma {:induction false} SubsumedItems(v: Value, remove: set<Path>, shallow: Path, deep: Path, i: nat)
    requires v.Arr? && i <= |v.items| && shallow in remove && shallow <= deep && shallow != []
    requires forall k: string :: [k] in remove + {deep} ==> [k] in remove
    ensures PruneItems(v, remove + {deep}, i) == PruneItems(v, remove, i)
    decreases v, 0, |v.items| - i
  {
    if i < |v.items| {
      if [Numeral(i)] !in remove { SubsumedBelow(v.items[i], remove, shallow, deep, Numeral(i)); }
      SubsumedItems(v, remove, shallow, deep, i + 1);
    }
  }

  // -------------------------------------------------------------------------
  // Does a pointer that resolves get applied?
  // -------------------------------------------------------------------------

  lemma BelowSingle(p: Path, token: string)
    requires p != []
    ensures Below({p}, token) == if p[0] == token then {p[1..]} else {}
  {
  }

  /** A path that no position spells removes nothing. */
  lemma {:induction false} AbsentPathRemovesNothing(v: Value, p: Path)
    requires p != [] && At(v, p).None?
    ensures Prune(v, {p}) == v
    decreases v, 1, 0
  {
    match v
    case Obj(fields) =>
      forall k | k in fields
        ensures [k] != p && Prune(fields[k], Below({p}, k)) == fields[k]
      {
        AbsentBelow(fields[k], v, p, k);
      }
      assert Prune(v, {p}).fields == fields;
    case Arr(_) => AbsentItems(v, p, 0);
    case _ =>
  }

  lemma {:induction false} AbsentBelow(c: Value, v: Value, p: Path, k: string)
    requires p != [] && At(v, p).None? && Child(v, k) == Some(c)
    ensures [k] != p && Prune(c, Below({p}, k)) == c
    decreases c, 2, 0
  {
    BelowSingle(p, k);
    if p[0] == k {
      assert At(c, p[1..]).None?;
      AbsentPathRemovesNothing(c, p[1..]);
    } else {
      PruneNothing(c);
    }
  }

  lemma {:induction false} AbsentItems(v: Value, p: Path, i: nat)
    requires v.Arr? && p != [] && At(v, p).None? && i <= |v.items|
    ensures PruneItems(v, {p}, i) == v.items[i..]
    decreases v, 0, |v.items| - i
  {
    if i < |v.items| {
      IndexOfNumeral(i, |v.items|);
      AbsentBelow(v.items[i], v, p, Numeral(i));
      AbsentItems(v, p, i + 1);
    }
  }

  /** Removing a position leaves a different document. */
  lemma {:induction false} PresentPathRemovesSomething(v: Value, p: Path)
    requires p != [] && At(v, p).Some?
    ensures Prune(v, {p}) != v
    decreases |p|
  {
    BelowSingle(p, p[0]);
    match v
    case Obj(fields) =>
      var pruned := Prune(v, {p}).fields;
      if |p| == 1 {
        assert p == [p[0]] && p[0] in fields && p[0] !in pruned;
      } else {
        assert [p[0]] != p;
        PresentPathRemovesSomething(fields[p[0]], p[1..]);
        assert pruned[p[0]] != fields[p[0]];
      }
    case Arr(items) =>
      var i := ValueOf(p[0]);
      ValueRoundTrip(p[0]);
      assert p[0] == Numeral(i);
      if |p| == 1 {
        assert p == [Numeral(i)];
        FewerItems(v, p, 0, i);
      } else {
        assert [Numeral(i)] != p;
        PresentPathRemovesSomething(items[i], p[1..]);
        OtherItem(v, p, 0, i);
      }
  }

  lemma {:induction false} AtMostAsMany(v: Value, remove: set<Path>, i: nat)
    requires v.Arr? && i <= |v.items|
    ensures |PruneItems(v, remove, i)| <= |v.items| - i
    decreases |v.items| - i
  {
    if i < |v.items| { AtMostAsMany(v, remove, i + 1); }
  }

  lemma {:induction false} FewerItems(v: Value, p: Path, j: nat, i: nat)
    requires v.Arr? && j <= i < |v.items| && p == [Numeral(i)]
    ensures |PruneItems(v, {p}, j)| < |v.items| - j
    decreases i - j
  {
    if j == i { AtMostAsMany(v, {p}, i + 1); } else { FewerItems(v, p, j + 1, i); }
  }

  lemma {:induction false} OtherItem(v: Value, p: Path, j: nat, i: nat)
    requires v.Arr? && j <= i < |v.items| && |p| > 1
    requires Prune(v.items[i], Below({p}, Numeral(i))) != v.items[i]
    ensures PruneItems(v, {p}, j) != v.items[j..]
    decreases i - j
  {
    assert [Numeral(j)] != p;
    PrunedItemStep(v, {p}, j);
    assert v.items[j..][1..] == v.items[j + 1..];
    if j < i { OtherItem(v, p, j + 1, i); }
  }

  /** Whether a step is spelled as the numeral of its index. */
  lemma {:induction false} PlainIffPosition(v: Value, p: Path)
    requires Resolve(v, p).Some?
    ensures At(v, p).Some? <==> PlainIndices(v, p)
    decreases |p|
  {
    if p != [] {
      var c := Step(v, p[0]).value;
      PlainIffPosition(c, p[1..]);
      if v.Arr? {
        var i := ArrayIndex(p[0]).value;
        IndexSpelling(p[0]);
        IndexOfNumeral(i, |v.items|);
        if p[0][0] == '+' { assert !IsDigit(p[0][0]); }
      }
    }
  }

  /**
   A pointer that resolves removes something if and only if none of its array indices is written
   with a leading plus.
  */
  lemma ResolvingPointerAppliesIffPlain(v: Value, p: Path)
    requires p != [] && Resolve(v, p).Some?
    ensures Prune(v, {p}) != v <==> PlainIndices(v, p)
  {
    PlainIffPosition(v, p);
    if At(v, p).Some? {
      PresentPathRemovesSomething(v, p);
    } else {
      AbsentPathRemovesNothing(v, p);
    }
  }

  /** `/xs/+1` resolves, so it is accepted as an exclusion, but excludes nothing. */
  lemma PlusIndexIsAcceptedAndIgnored()
    ensures exists v: Value, p: Path :: p != [] && Resolve(v, p).Some? && Prune(v, {p}) == v
  {
    var xs := Arr([Null, Bool(true)]);
    var v := Obj(map["xs" := xs]);
    var p: Path := ["xs", "+1"];
    assert "+1"[1..] == "1" && AllDigits("1");
    assert ValueOf("1") == 1 by { assert "1"[..0] == ""; assert ValueOf("") == 0; }
    assert ArrayIndex("+1") == Some(1);
    assert p[1..] == ["+1"] && ["+1"][1..] == [];
    assert Resolve(xs, ["+1"]) == Some(Bool(true));
    assert Resolve(v, p) == Some(Bool(true));
    assert !PlainIndices(xs, ["+1"]);
    assert Step(v, p[0]) == Some(xs);
    ResolvingPointerAppliesIffPlain(v, p);
  }
}
