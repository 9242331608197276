/**
 The Python prune: pointers grouped by their first token, recursing with the rests.

 For every document and every list of pointers that resolve in it, it returns
 what the Rust rebuild returns.
*/
module PythonPrune {
  import opened Wrappers
  import opened Decimal
  import opened Json
  import opened Pointers
  import opened PruneForms

  /** The tokens that end a path here. */
  function Dropped(paths: seq<Path>): set<string> {
    set p | p in paths && |p| == 1 :: p[0]
  }

  /** The rests of the longer paths that start with a token, in order. */
  function Deeper(paths: seq<Path>, head: string): seq<Path> {
    if paths == [] then []
    else
      var rest := Deeper(paths[1..], head);
      if |paths[0]| > 1 && paths[0][0] == head then [paths[0][1..]] + rest else rest
  }

  function Heads(paths: seq<Path>): set<string> {
    set p | p in paths && |p| > 0 :: p[0]
  }

  /** `_prune`: a value, or nothing where the Python raises. */
  ghost function PyPrune(node: Value, paths: seq<Path>): Option<Value>
    decreases node, 1, 0
  {
    if paths == [] then Some(node)
    else match node
      case Obj(fields) =>
        if forall k :: k in fields && k !in Dropped(paths) ==> PyPrune(fields[k], Deeper(paths, k)).Some? then
          Some(Obj(map k | k in fields && k !in Dropped(paths) :: PyPrune(fields[k], Deeper(paths, k)).value))
        else None
      case Arr(items) =>
        if forall t :: t in Heads(paths) ==> IsIndexOf(t, |items|) then
          match PyPruneItems(node, paths, 0) case Some(kept) => Some(Arr(kept)) case None => None
        else None
      case _ => None
  }

  ghost function PyPruneItems(node: Value, paths: seq<Path>, i: nat): Option<seq<Value>>
    requires node.Arr? && i <= |node.items|
    decreases node, 0, |node.items| - i
  {
    if i == |node.items| then Some([])
    else if Numeral(i) in Dropped(paths) then PyPruneItems(node, paths, i + 1)
    else match (PyPrune(node.items[i], Deeper(paths, Numeral(i))), PyPruneItems(node, paths, i + 1))
      case (Some(v), Some(rest)) => Some([v] + rest)
      case _ => None
  }

  lemma {:induction false} DeeperIsBelow(paths: seq<Path>, head: string)
    requires head !in Dropped(paths)
    ensures PathSet(Deeper(paths, head)) == Below(PathSet(paths), head)
    decreases |paths|
  {
    if paths != [] {
      assert forall p :: p in paths[1..] ==> p in paths;
      assert head !in Dropped(paths[1..]);
      DeeperIsBelow(paths[1..], head);
      var rest := Deeper(paths[1..], head);
      assert PathSet(paths) == PathSet(paths[1..]) + {paths[0]} by {
        assert paths == [paths[0]] + paths[1..];
      }
      assert paths[0] in paths;
      if |paths[0]| > 0 && paths[0][0] == head {
        assert |paths[0]| > 1;
        assert Below(PathSet(paths), head) == Below(PathSet(paths[1..]), head) + {paths[0][1..]};
        assert PathSet([paths[0][1..]] + rest) == {paths[0][1..]} + PathSet(rest);
      } else {
        assert Below(PathSet(paths), head) == Below(PathSet(paths[1..]), head);
      }
    }
  }

  lemma DroppedIsNamed(paths: seq<Path>, k: string)
    ensures k in Dropped(paths) <==> [k] in PathSet(paths)
  {
    if k in Dropped(paths) {
      var p :| p in paths && |p| == 1 && p[0] == k;
      assert p == [k];
    }
    if [k] in paths { assert |[k]| == 1 && [k][0] == k; }
  }

  /** Each pointer names at least one token and a position of the document. */
  ghost predicate AllPresent(v: Value, paths: seq<Path>) {
    forall p :: p in paths ==> p != [] && At(v, p).Some?
  }

  lemma {:induction false} DeeperPresent(v: Value, paths: seq<Path>, head: string, c: Value)
    requires AllPresent(v, paths) && Child(v, head) == Some(c)
    ensures AllPresent(c, Deeper(paths, head))
    decreases |paths|
  {
    if paths != [] {
      assert paths[0] in paths;
      assert forall p :: p in paths[1..] ==> p in paths;
      DeeperPresent(v, paths[1..], head, c);
    }
  }

  /** The grouping prune and the full-path prune return the same value. */
  lemma {:induction false} PythonPruneIsRustPrune(v: Value, paths: seq<Path>)
    requires AllPresent(v, paths)
    ensures PyPrune(v, paths) == Some(Prune(v, PathSet(paths)))
    decreases v, 1, 0
  {
    if paths == [] {
      assert PathSet(paths) == {};
      PruneNothing(v);
    } else {
      assert paths[0] in paths && paths[0][0] in Heads(paths);
      match v
      case Obj(fields) =>
        forall k | k in fields
          ensures k in Dropped(paths) <==> [k] in PathSet(paths)
          ensures k !in Dropped(paths) ==>
            PyPrune(fields[k], Deeper(paths, k)) == Some(Prune(fields[k], Below(PathSet(paths), k)))
        {
          DroppedIsNamed(paths, k);
          if k !in Dropped(paths) {
            DeeperPresent(v, paths, k, fields[k]);
            DeeperIsBelow(paths, k);
            PythonPruneIsRustPrune(fields[k], Deeper(paths, k));
          }
        }
        assert PyPrune(v, paths).value.fields == Prune(v, PathSet(paths)).fields;
      case Arr(_) =>
        PythonItemsAreRustItems(v, paths, 0);
      case _ =>
    }
  }

  lemma {:induction false} PythonItemsAreRustItems(v: Value, paths: seq<Path>, i: nat)
    requires v.Arr? && i <= |v.items| && AllPresent(v, paths)
    ensures PyPruneItems(v, paths, i) == Some(PruneItems(v, PathSet(paths), i))
    decreases v, 0, |v.items| - i
  {
    if i < |v.items| {
      var k := Numeral(i);
      DroppedIsNamed(paths, k);
      PrunedItemStep(v, PathSet(paths), i);
      PythonItemsAreRustItems(v, paths, i + 1);
      if k !in Dropped(paths) {
        IndexOfNumeral(i, |v.items|);
        DeeperPresent(v, paths, k, v.items[i]);
        DeeperIsBelow(paths, k);
        PythonPruneIsRustPrune(v.items[i], Deeper(paths, k));
      }
    }
  }
}
