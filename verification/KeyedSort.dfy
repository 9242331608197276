/**
 A stable sort by a pair of texts, and exactly when its result does not depend on
 the order of its input.
*/
module KeyedSort {
  import opened TextOrder
  import opened Sequences

  type Key = (string, string)

  predicate KeyBefore(a: Key, b: Key) {
    Before(a.0, b.0) || (a.0 == b.0 && Before(a.1, b.1))
  }

  lemma KeyTotal(a: Key, b: Key)
    ensures !KeyBefore(a, a) && !(KeyBefore(a, b) && KeyBefore(b, a))
    ensures a == b || KeyBefore(a, b) || KeyBefore(b, a)
  {
    BeforeTotal(a.0, b.0);
    BeforeTotal(a.1, b.1);
  }

  lemma KeyTransitive(a: Key, b: Key, c: Key)
    requires KeyBefore(a, b) && KeyBefore(b, c)
    ensures KeyBefore(a, c)
  {
    if Before(a.0, b.0) && Before(b.0, c.0) {
      BeforeTransitive(a.0, b.0, c.0);
    } else if a.0 == b.0 == c.0 {
      BeforeTransitive(a.1, b.1, c.1);
    }
  }

  /** Behind every element it does not precede. */
  function Insert<T>(sorted: seq<T>, x: T, key: T -> Key): seq<T> {
    if sorted == [] || !KeyBefore(key(x), key(Last(sorted))) then sorted + [x]
    else Insert(Front(sorted), x, key) + [Last(sorted)]
  }

  function StableSort<T>(xs: seq<T>, key: T -> Key): seq<T> {
    if xs == [] then [] else Insert(StableSort(Front(xs), key), Last(xs), key)
  }

  /** The elements with a given key, in order. */
  function With<T>(xs: seq<T>, key: T -> Key, k: Key): seq<T> {
    if xs == [] then []
    else With(Front(xs), key, k) + (if key(Last(xs)) == k then [Last(xs)] else [])
  }

  /** No element precedes its predecessor, all the way down. */
  predicate Ordered<T>(xs: seq<T>, key: T -> Key) {
    |xs| <= 1 || (Ordered(Front(xs), key) && !KeyBefore(key(Last(xs)), key(Last(Front(xs)))))
  }

  lemma SplitLast<T>(xs: seq<T>)
    requires xs != []
    ensures multiset(xs) == multiset(Front(xs)) + multiset{Last(xs)}
  {
    assert xs == Front(xs) + [Last(xs)];
  }

  lemma {:induction false} InsertAddsOne<T>(sorted: seq<T>, x: T, key: T -> Key)
    ensures multiset(Insert(sorted, x, key)) == multiset(sorted) + multiset{x}
    decreases |sorted|
  {
    if sorted != [] && KeyBefore(key(x), key(Last(sorted))) {
      InsertAddsOne(Front(sorted), x, key);
      SplitLast(sorted);
    }
  }

  lemma {:induction false} InsertKeepsOrder<T>(sorted: seq<T>, x: T, key: T -> Key)
    requires Ordered(sorted, key)
    ensures Ordered(Insert(sorted, x, key), key)
    ensures Insert(sorted, x, key) != []
    ensures Last(Insert(sorted, x, key)) == x || (sorted != [] && Last(Insert(sorted, x, key)) == Last(sorted))
    decreases |sorted|
  {
    if sorted != [] && KeyBefore(key(x), key(Last(sorted))) {
      InsertKeepsOrder(Front(sorted), x, key);
      assert Front(Insert(sorted, x, key)) == Insert(Front(sorted), x, key);
      KeyTotal(key(x), key(Last(sorted)));
    } else {
      assert Front(sorted + [x]) == sorted;
    }
  }

  lemma {:induction false} SortSpec<T>(xs: seq<T>, key: T -> Key)
    ensures Ordered(StableSort(xs, key), key) && multiset(StableSort(xs, key)) == multiset(xs)
    decreases |xs|
  {
    if xs != [] {
      var front := StableSort(Front(xs), key);
      SortSpec(Front(xs), key);
      InsertKeepsOrder(front, Last(xs), key);
      InsertAddsOne(front, Last(xs), key);
      SplitLast(xs);
    }
  }

  // -------------------------------------------------------------------------
  // An ordered sequence is determined by its groups
  // -------------------------------------------------------------------------

  lemma {:induction false} LastIsGreatest<T>(xs: seq<T>, key: T -> Key, i: nat)
    requires Ordered(xs, key) && i < |xs|
    ensures !KeyBefore(key(Last(xs)), key(xs[i]))
    decreases |xs|
  {
    KeyTotal(key(Last(xs)), key(Last(xs)));
    if i < |xs| - 1 {
      var b, c := key(Last(Front(xs))), key(Last(xs));
      LastIsGreatest(Front(xs), key, i);
      KeyTotal(b, c);
      if KeyBefore(c, key(xs[i])) && KeyBefore(b, c) { KeyTransitive(b, c, key(xs[i])); }
    }
  }

  lemma {:induction false} WithPresent<T>(xs: seq<T>, key: T -> Key, k: Key)
    ensures With(xs, key, k) != [] ==> exists i :: 0 <= i < |xs| && key(xs[i]) == k
    ensures (exists i :: 0 <= i < |xs| && key(xs[i]) == k) ==> With(xs, key, k) != []
    decreases |xs|
  {
    if xs != [] {
      WithPresent(Front(xs), key, k);
      if With(Front(xs), key, k) != [] {
        var i :| 0 <= i < |Front(xs)| && key(Front(xs)[i]) == k;
        assert key(xs[i]) == k;
      } else if key(Last(xs)) != k {
        assert forall i :: 0 <= i < |xs| && key(xs[i]) == k ==> i < |xs| - 1 && key(Front(xs)[i]) == k;
      }
    }
  }

  lemma SameWithoutLast<T>(a: seq<T>, b: seq<T>, key: T -> Key, j: Key)
    requires a != [] && b != [] && key(Last(a)) == key(Last(b)) && With(a, key, j) == With(b, key, j)
    ensures With(Front(a), key, j) == With(Front(b), key, j)
  {
    var x, y := With(Front(a), key, j), With(Front(b), key, j);
    if key(Last(a)) == j {
      assert With(a, key, j) == x + [Last(a)] && With(b, key, j) == y + [Last(b)];
      assert x == (x + [Last(a)])[..|x|] && y == (y + [Last(b)])[..|y|];
      assert |x| == |y|;
    } else {
      assert With(a, key, j) == x + [] && With(b, key, j) == y + [];
    }
  }

  /** Two ordered sequences with the same groups are the same. */
  lemma {:induction false} GroupsDetermine<T>(a: seq<T>, b: seq<T>, key: T -> Key)
    requires Ordered(a, key) && Ordered(b, key)
    requires forall k :: With(a, key, k) == With(b, key, k)
    ensures a == b
    decreases |a|
  {
    if a == [] || b == [] {
      if a != [] { WithPresent(a, key, key(Last(a))); }
      if b != [] { WithPresent(b, key, key(Last(b))); }
    } else {
      SameLastKey(a, b, key);
      var k := key(Last(a));
      assert Last(With(a, key, k)) == Last(a) && Last(With(b, key, k)) == Last(b);
      forall j
        ensures With(Front(a), key, j) == With(Front(b), key, j)
      {
        SameWithoutLast(a, b, key, j);
      }
      GroupsDetermine(Front(a), Front(b), key);
      assert a == Front(a) + [Last(a)] && b == Front(b) + [Last(b)];
    }
  }

  lemma SameLastKey<T>(a: seq<T>, b: seq<T>, key: T -> Key)
    requires Ordered(a, key) && Ordered(b, key) && a != [] && b != []
    requires forall k :: With(a, key, k) == With(b, key, k)
    ensures key(Last(a)) == key(Last(b))
  {
    var ka, kb := key(Last(a)), key(Last(b));
    WithPresent(a, key, ka);
    WithPresent(b, key, ka);
    WithPresent(a, key, kb);
    WithPresent(b, key, kb);
    assert With(a, key, ka) == With(b, key, ka) && With(a, key, kb) == With(b, key, kb);
    var i :| 0 <= i < |b| && key(b[i]) == ka;
    var j :| 0 <= j < |a| && key(a[j]) == kb;
    LastIsGreatest(b, key, i);
    LastIsGreatest(a, key, j);
    KeyTotal(ka, kb);
  }

  lemma {:induction false} InsertKeepsGroups<T>(sorted: seq<T>, x: T, key: T -> Key, k: Key)
    requires Ordered(sorted, key)
    ensures With(Insert(sorted, x, key), key, k) == With(sorted, key, k) + (if key(x) == k then [x] else [])
    decreases |sorted|
  {
    if sorted == [] || !KeyBefore(key(x), key(Last(sorted))) {
      assert Front(sorted + [x]) == sorted;
    } else {
      var inner := Insert(Front(sorted), x, key);
      assert Front(inner + [Last(sorted)]) == inner;
      InsertKeepsGroups(Front(sorted), x, key, k);
      KeyTotal(key(x), key(Last(sorted)));
    }
  }

  /** Stability: sorting keeps the elements of one key in their order. */
  lemma {:induction false} SortKeepsGroups<T>(xs: seq<T>, key: T -> Key, k: Key)
    ensures With(StableSort(xs, key), key, k) == With(xs, key, k)
    decreases |xs|
  {
    if xs != [] {
      SortSpec(Front(xs), key);
      SortKeepsGroups(Front(xs), key, k);
      InsertKeepsGroups(StableSort(Front(xs), key), Last(xs), key, k);
    }
  }

  // -------------------------------------------------------------------------
  // Independence from the input order
  // -------------------------------------------------------------------------

  /** Elements that share a key are the same element. */
  ghost predicate KeyIdentifies<T>(xs: seq<T>, key: T -> Key) {
    forall i, j :: 0 <= i < |xs| && 0 <= j < |xs| && key(xs[i]) == key(xs[j]) ==> xs[i] == xs[j]
  }

  ghost function Repeat<T>(x: T, n: nat): seq<T> {
    if n == 0 then [] else Repeat(x, n - 1) + [x]
  }

  lemma {:induction false} GroupIsRepeat<T>(xs: seq<T>, key: T -> Key, x: T)
    requires forall y :: y in xs && key(y) == key(x) ==> y == x
    ensures With(xs, key, key(x)) == Repeat(x, multiset(xs)[x])
    decreases |xs|
  {
    if xs != [] {
      SplitLast(xs);
      assert forall y :: y in Front(xs) ==> y in xs;
      assert Last(xs) in xs;
      assert multiset(xs)[x] == multiset(Front(xs))[x] + if Last(xs) == x then 1 else 0;
      GroupIsRepeat(Front(xs), key, x);
    }
  }

  lemma SameElementsSameGroups<T>(xs: seq<T>, ys: seq<T>, key: T -> Key, k: Key)
    requires multiset(xs) == multiset(ys) && KeyIdentifies(xs, key)
    ensures With(xs, key, k) == With(ys, key, k)
  {
    WithPresent(xs, key, k);
    WithPresent(ys, key, k);
    assert forall y :: y in ys ==> y in multiset(ys) && y in multiset(xs) && y in xs;
    assert forall y :: y in xs ==> y in multiset(xs) && y in multiset(ys) && y in ys;
    if With(xs, key, k) != [] || With(ys, key, k) != [] {
      var x :| x in xs && key(x) == k;
      GroupIsRepeat(xs, key, x);
      GroupIsRepeat(ys, key, x);
    }
  }

  /** Every reordering of `xs` sorts to the same sequence. */
  ghost predicate OrderFree<T(!new)>(xs: seq<T>, key: T -> Key) {
    forall ys: seq<T> :: multiset(ys) == multiset(xs) ==> StableSort(ys, key) == StableSort(xs, key)
  }

  lemma IdentifyingKeysAreOrderFree<T(!new)>(xs: seq<T>, key: T -> Key)
    requires KeyIdentifies(xs, key)
    ensures OrderFree(xs, key)
  {
    forall ys: seq<T> | multiset(ys) == multiset(xs)
      ensures StableSort(ys, key) == StableSort(xs, key)
    {
      SortSpec(xs, key);
      SortSpec(ys, key);
      forall k
        ensures With(StableSort(xs, key), key, k) == With(StableSort(ys, key), key, k)
      {
        SortKeepsGroups(xs, key, k);
        SortKeepsGroups(ys, key, k);
        SameElementsSameGroups(xs, ys, key, k);
      }
      GroupsDetermine(StableSort(xs, key), StableSort(ys, key), key);
    }
  }

  lemma {:induction false} FirstOfGroup<T>(x: T, rest: seq<T>, key: T -> Key)
    ensures With([x] + rest, key, key(x)) != [] && With([x] + rest, key, key(x))[0] == x
    decreases |rest|
  {
    if rest == [] {
      assert [x] + rest == [x] && Front([x]) == [];
    } else {
      assert Front([x] + rest) == [x] + Front(rest) && Last([x] + rest) == Last(rest);
      FirstOfGroup(x, Front(rest), key);
    }
  }

  /** What a group starts with survives sorting. */
  lemma FrontsDiffer<T>(x: T, xs: seq<T>, y: T, ys: seq<T>, key: T -> Key)
    requires key(x) == key(y) && x != y
    ensures StableSort([x] + xs, key) != StableSort([y] + ys, key)
  {
    FirstOfGroup(x, xs, key);
    FirstOfGroup(y, ys, key);
    SortKeepsGroups([x] + xs, key, key(x));
    SortKeepsGroups([y] + ys, key, key(x));
  }

  lemma RemoveAt<T>(xs: seq<T>, i: nat)
    requires i < |xs|
    ensures multiset(xs) == multiset(xs[..i] + xs[i + 1..]) + multiset{xs[i]}
  {
    assert xs == xs[..i] + [xs[i]] + xs[i + 1..];
  }

  lemma BringToFront<T>(xs: seq<T>, i: nat) returns (ys: seq<T>)
    requires i < |xs|
    ensures ys == [xs[i]] + (xs[..i] + xs[i + 1..]) && multiset(ys) == multiset(xs)
  {
    ys := [xs[i]] + (xs[..i] + xs[i + 1..]);
    RemoveAt(xs, i);
  }

  /** The input order is immaterial exactly when elements that share a key are equal. */
  lemma OrderFreeIffKeyIdentifies<T(!new)>(xs: seq<T>, key: T -> Key)
    ensures OrderFree(xs, key) <==> KeyIdentifies(xs, key)
  {
    if KeyIdentifies(xs, key) {
      IdentifyingKeysAreOrderFree(xs, key);
    } else {
      var i, j :| 0 <= i < |xs| && 0 <= j < |xs| && key(xs[i]) == key(xs[j]) && xs[i] != xs[j];
      var ys := BringToFront(xs, i);
      var zs := BringToFront(xs, j);
      FrontsDiffer(xs[i], xs[..i] + xs[i + 1..], xs[j], xs[..j] + xs[j + 1..], key);
      assert StableSort(ys, key) != StableSort(zs, key);
    }
  }
}
