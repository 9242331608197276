/**
 JSON Pointers and pruning.

 Pruning rebuilds a document without the positions the pointers name. Two
 documents prune to the same value exactly when they agree at every position
 outside the named ones. The recursive Rust rebuild (a set of full paths and a
 path stack) and the Python one (pointers grouped by their first token) are
 proved to return the same value.
*/
module Pointers {
  import opened Wrappers
  import opened Decimal
  import opened Json

  type Path = seq<string>

  // -------------------------------------------------------------------------
  // Array indices
  // -------------------------------------------------------------------------

  const USIZE_LIMIT := 0x1_0000_0000_0000_0000

  /** Reading a `usize` as the standard library does: a leading plus is allowed. */
  function ParseUsize(token: string): Option<nat> {
    var digits := if token != "" && token[0] == '+' then token[1..] else token;
    if digits == "" || !AllDigits(digits) || ValueOf(digits) >= USIZE_LIMIT then None
    else Some(ValueOf(digits))
  }

  function ArrayIndex(token: string): Option<nat> {
    if token != "0" && token != "" && token[0] == '0' then None else ParseUsize(token)
  }

  /** A plus, then any zeros, then the numeral. */
  ghost predicate SignedSpelling(token: string, i: nat) {
    exists k: nat :: token == "+" + (Zeros(k) + Numeral(i))
  }

  lemma SignedIndex(digits: string, i: nat)
    requires i < USIZE_LIMIT && digits != "" && AllDigits(digits) && ValueOf(digits) == i
    ensures ArrayIndex("+" + digits) == Some(i)
  {
    assert ("+" + digits)[1..] == digits;
  }

  lemma PaddedIndex(k: nat, s: string, i: nat)
    requires i < USIZE_LIMIT && s != "" && AllDigits(s) && ValueOf(s) == i
    ensures ArrayIndex("+" + (Zeros(k) + s)) == Some(i)
  {
    var digits := Zeros(k) + s;
    assert AllDigits(digits);
    assert ValueOf(digits) == i by { ZerosInFront(k, s); }
    SignedIndex(digits, i);
  }

  lemma SignedSpellingIsIndex(token: string, i: nat)
    requires i < USIZE_LIMIT && SignedSpelling(token, i)
    ensures ArrayIndex(token) == Some(i)
  {
    var k: nat :| token == "+" + (Zeros(k) + Numeral(i));
    assert ValueOf(Numeral(i)) == i by { NumeralRoundTrip(i); }
    PaddedIndex(k, Numeral(i), i);
  }

  lemma SignedIndexIsSpelling(token: string, i: nat)
    requires ArrayIndex(token) == Some(i) && token != "" && token[0] == '+'
    ensures SignedSpelling(token, i)
  {
    var k := PaddedNumeral(token[1..]);
    assert token == "+" + token[1..];
    assert token == "+" + (Zeros(k) + Numeral(i));
  }

  /**
   What spells an index of 64 bits: its numeral, in the grammar of section 4 of RFC 6901, or a
   plus and its digits with any zeros in front. Nothing spells a larger one.
  */
  lemma IndexSpellings(token: string, i: nat)
    ensures ArrayIndex(token) == Some(i) <==>
      i < 18446744073709551616 && (token == Numeral(i) || SignedSpelling(token, i))
  {
    if i >= USIZE_LIMIT {
      assert ArrayIndex(token) != Some(i);
      return;
    }
    if ArrayIndex(token) == Some(i) {
      IndexSpelling(token);
      if token[0] == '+' { SignedIndexIsSpelling(token, i); }
    }
    if token == Numeral(i) { NumeralIsIndex(i); }
    if SignedSpelling(token, i) { SignedSpellingIsIndex(token, i); }
  }

  lemma IndexSpelling(token: string)
    requires ArrayIndex(token).Some?
    ensures token != ""
    ensures token[0] != '+' <==> token == Numeral(ArrayIndex(token).value)
  {
    if token[0] != '+' {
      ValueRoundTrip(token);
    } else {
      assert !IsDigit(token[0]);
    }
  }

  lemma NumeralIsIndex(i: nat)
    requires i < USIZE_LIMIT
    ensures ArrayIndex(Numeral(i)) == Some(i)
  {
    NumeralRoundTrip(i);
    assert IsDigit(Numeral(i)[0]);
    if Numeral(i)[0] == '0' { assert i == 0 && Numeral(0) == "0"; }
  }

  // -------------------------------------------------------------------------
  // Positions
  // -------------------------------------------------------------------------

  /** The node at a path: array positions are spelled as their plain numeral. */
  function At(v: Value, p: Path): Option<Value>
    decreases |p|
  {
    if p == [] then Some(v)
    else match Child(v, p[0]) case Some(c) => At(c, p[1..]) case None => None
  }

  function Child(v: Value, token: string): Option<Value> {
    match v
    case Obj(fields) => if token in fields then Some(fields[token]) else None
    case Arr(items) => if IsIndexOf(token, |items|) then Some(items[ValueOf(token)]) else None
    case _ => None
  }

  predicate IsIndexOf(token: string, length: nat) {
    AllDigits(token) && token != "" && !LeadingZero(token) && ValueOf(token) < length
  }

  lemma IndexOfNumeral(i: nat, length: nat)
    ensures IsIndexOf(Numeral(i), length) <==> i < length
    ensures ValueOf(Numeral(i)) == i
  {
    NumeralRoundTrip(i);
  }

  /** Following a pointer as `resolve` does. */
  function Resolve(v: Value, p: Path): Option<Value>
    decreases |p|
  {
    if p == [] then Some(v)
    else match Step(v, p[0]) case Some(c) => Resolve(c, p[1..]) case None => None
  }

  function Step(v: Value, token: string): Option<Value> {
    match v
    case Obj(fields) => if token in fields then Some(fields[token]) else None
    case Arr(items) =>
      (match ArrayIndex(token)
       case Some(i) => if i < |items| then Some(items[i]) else None
       case None => None)
    case _ => None
  }

  /** Follows the pointer with a cursor, or reports that it does not resolve. */
  method ResolvePointer(root: Value, tokens: Path) returns (r: Option<Value>)
    ensures r == Resolve(root, tokens)
  {
    var cursor := root;
    for i := 0 to |tokens|
      invariant Resolve(cursor, tokens[i..]) == Resolve(root, tokens)
    {
      assert tokens[i..][0] == tokens[i] && tokens[i..][1..] == tokens[i + 1..];
      match cursor {
        case Obj(fields) =>
          if tokens[i] !in fields { return None; }
          cursor := fields[tokens[i]];
        case Arr(items) =>
          var index := ArrayIndex(tokens[i]);
          if index.None? || index.value >= |items| { return None; }
          cursor := items[index.value];
        case _ => return None;
      }
    }
    return Some(cursor);
  }

  /** No array on the way is indexed with a leading plus. */
  predicate PlainIndices(v: Value, p: Path)
    decreases |p|
  {
    p != [] ==>
      && (v.Arr? ==> p[0] != "" && p[0][0] != '+')
      && (Step(v, p[0]).Some? ==> PlainIndices(Step(v, p[0]).value, p[1..]))
  }

  lemma {:induction false} ResolveIsAt(v: Value, p: Path)
    requires Resolve(v, p).Some? && PlainIndices(v, p)
    ensures At(v, p) == Resolve(v, p)
    decreases |p|
  {
    if p != [] {
      if v.Arr? {
        IndexSpelling(p[0]);
        IndexOfNumeral(ArrayIndex(p[0]).value, |v.items|);
      }
      ResolveIsAt(Step(v, p[0]).value, p[1..]);
    }
  }

  /** Arrays are shorter than the machine's index range. */
  ghost predicate Indexable(v: Value) {
    forall w :: Inside(w, v) && w.Arr? ==> |w.items| < USIZE_LIMIT
  }

  /** What is at a position, its pointer finds. */
  lemma {:induction false} PositionResolves(v: Value, p: Path)
    requires At(v, p).Some? && Indexable(v)
    ensures Resolve(v, p) == At(v, p)
    decreases |p|
  {
    if p != [] {
      var c := Child(v, p[0]).value;
      assert Inside(v, v);
      if v.Arr? {
        ValueRoundTrip(p[0]);
        NumeralIsIndex(ValueOf(p[0]));
      }
      forall w | Inside(w, c)
        ensures Inside(w, v)
      {
        if v.Arr? { assert Inside(w, v.items[ValueOf(p[0])]); }
      }
      PositionResolves(c, p[1..]);
    }
  }

  lemma {:induction false} PositionIsPlain(v: Value, p: Path)
    requires At(v, p).Some? && Indexable(v)
    ensures PlainIndices(v, p)
    decreases |p|
  {
    if p != [] {
      var c := Child(v, p[0]).value;
      assert Inside(v, v);
      if v.Arr? {
        ValueRoundTrip(p[0]);
        NumeralIsIndex(ValueOf(p[0]));
        assert IsDigit(p[0][0]);
      }
      forall w | Inside(w, c)
        ensures Inside(w, v)
      {
        if v.Arr? { assert Inside(w, v.items[ValueOf(p[0])]); }
      }
      PositionIsPlain(c, p[1..]);
    }
  }

  /** The token as `At` spells it. */
  function PlainToken(v: Value, token: string): string
    requires Step(v, token).Some?
  {
    if v.Arr? then Numeral(ArrayIndex(token).value) else token
  }

  /** The position a pointer leads to, however its indices are spelled. */
  function PlainPath(v: Value, p: Path): Path
    requires Resolve(v, p).Some?
    decreases |p|
  {
    if p == [] then [] else [PlainToken(v, p[0])] + PlainPath(Step(v, p[0]).value, p[1..])
  }

  lemma PlainStep(v: Value, token: string)
    requires Step(v, token).Some?
    ensures Child(v, PlainToken(v, token)) == Step(v, token)
  {
    if v.Arr? { IndexOfNumeral(ArrayIndex(token).value, |v.items|); }
  }

  lemma {:induction false} PlainPathFinds(v: Value, p: Path)
    requires Resolve(v, p).Some?
    ensures At(v, PlainPath(v, p)) == Resolve(v, p)
    decreases |p|
  {
    if p != [] {
      PlainStep(v, p[0]);
      PlainPathFinds(Step(v, p[0]).value, p[1..]);
    }
  }

  /** Of a pointer that is spelled plainly it is the pointer itself. */
  lemma {:induction false} PlainPathIsPlain(v: Value, p: Path)
    requires At(v, p).Some? && Indexable(v)
    ensures Resolve(v, p).Some? && PlainPath(v, p) == p
    decreases |p|
  {
    PositionResolves(v, p);
    if p != [] {
      assert Inside(v, v);
      if v.Arr? {
        ValueRoundTrip(p[0]);
        NumeralIsIndex(ValueOf(p[0]));
      }
      IndexableChild(v, p[0]);
      PlainPathIsPlain(Child(v, p[0]).value, p[1..]);
    }
  }

  lemma IndexableChild(v: Value, k: string)
    requires Indexable(v) && Child(v, k).Some?
    ensures Indexable(Child(v, k).value)
  {
    forall w | Inside(w, Child(v, k).value)
      ensures Inside(w, v)
    {
      if v.Arr? { assert Inside(w, v.items[ValueOf(k)]); }
    }
  }

  /** A pointer finds a position exactly when it resolves and its indices are spelled plainly. */
  lemma AtIffPlain(v: Value, p: Path)
    requires Indexable(v)
    ensures At(v, p).Some? <==> Resolve(v, p).Some? && PlainIndices(v, p)
  {
    if At(v, p).Some? {
      PositionResolves(v, p);
      PositionIsPlain(v, p);
    } else if Resolve(v, p).Some? && PlainIndices(v, p) {
      ResolveIsAt(v, p);
    }
  }

  // -------------------------------------------------------------------------
  // Pruning
  // -------------------------------------------------------------------------

  /** The paths below one token. */
  function Below(remove: set<Path>, token: string): set<Path> {
    set q | q in remove && |q| > 0 && q[0] == token :: q[1..]
  }

  /** The document without the nodes at the given paths. */
  function Prune(v: Value, remove: set<Path>): Value
    decreases v, 1, 0
  {
    match v
    case Obj(fields) =>
      Obj(map k | k in fields && [k] !in remove :: Prune(fields[k], Below(remove, k)))
    case Arr(items) => Arr(PruneItems(v, remove, 0))
    case _ => v
  }

  /** The surviving items from position `i` on, in order. */
  function PruneItems(v: Value, remove: set<Path>, i: nat): seq<Value>
    requires v.Arr? && i <= |v.items|
    decreases v, 0, |v.items| - i
  {
    if i == |v.items| then []
    else
      var rest := PruneItems(v, remove, i + 1);
      if [Numeral(i)] in remove then rest
      else [Prune(v.items[i], Below(remove, Numeral(i)))] + rest
  }

  // -------------------------------------------------------------------------
  // Equal pruned forms mean agreement outside the named positions
  // -------------------------------------------------------------------------

  datatype Kind = Missing | Scalar(v: Value) | Object | Array

  function KindOf(o: Option<Value>): Kind {
    match o
    case None => Missing
    case Some(Obj(_)) => Object
    case Some(Arr(_)) => Array
    case Some(v) => Scalar(v)
  }

  /** The path, or a position above it, is named. */
  ghost predicate Covered(p: Path, remove: set<Path>) {
    exists q :: q in remove && q <= p
  }

  /** The two documents show the same thing at every position that is not covered. */
  ghost predicate AgreeOutside(v: Value, w: Value, remove: set<Path>) {
    forall p :: !Covered(p, remove) ==> KindOf(At(v, p)) == KindOf(At(w, p))
  }

  lemma CoveredBelow(token: string, p: Path, remove: set<Path>)
    requires [] !in remove
    ensures Covered([token] + p, remove) <==> [token] in remove || Covered(p, Below(remove, token))
  {
    if Covered([token] + p, remove) && [token] !in remove {
      var q :| q in remove && q <= [token] + p;
      assert q == [token] + q[1..] && q[1..] <= p;
      assert q[1..] in Below(remove, token);
    }
    if Covered(p, Below(remove, token)) {
      var q :| q in Below(remove, token) && q <= p;
      var full :| full in remove && |full| > 0 && full[0] == token && full[1..] == q;
      assert full == [token] + q && full <= [token] + p;
    }
  }

  lemma NoEmptyBelow(remove: set<Path>, token: string)
    requires [token] !in remove
    ensures [] !in Below(remove, token)
  {
    assert forall q: Path :: |q| > 0 && q[0] == token && q[1..] == [] ==> q == [token];
  }

  /** Agreement at the root, and below every token that is not itself named. */
  lemma AgreementSplits(v: Value, w: Value, remove: set<Path>)
    requires [] !in remove
    ensures AgreeOutside(v, w, remove) <==>
      && KindOf(Some(v)) == KindOf(Some(w))
      && forall t :: [t] !in remove ==> ChildrenAgree(v, w, t, Below(remove, t))
  {
    if AgreeOutside(v, w, remove) {
      assert !Covered([], remove) && At(v, []) == Some(v) && At(w, []) == Some(w);
      forall t | [t] !in remove
        ensures ChildrenAgree(v, w, t, Below(remove, t))
      {
        ChildAgreement(v, w, t, remove);
      }
    }
    if KindOf(Some(v)) == KindOf(Some(w))
       && forall t :: [t] !in remove ==> ChildrenAgree(v, w, t, Below(remove, t)) {
      forall p | !Covered(p, remove)
        ensures KindOf(At(v, p)) == KindOf(At(w, p))
      {
        if p != [] {
          assert p == [p[0]] + p[1..];
          CoveredBelow(p[0], p[1..], remove);
          assert ChildrenAgree(v, w, p[0], Below(remove, p[0]));
        }
      }
    }
  }

  /** Both documents lack the child, or both have it and agree below it. */
  ghost predicate ChildrenAgree(v: Value, w: Value, token: string, below: set<Path>) {
    match (Child(v, token), Child(w, token))
    case (None, None) => true
    case (Some(a), Some(b)) => AgreeOutside(a, b, below)
    case _ => false
  }

  lemma AtBelow(v: Value, t: string, p: Path)
    ensures At(v, [t] + p) == match Child(v, t) case Some(c) => At(c, p) case None => None
  {
    assert ([t] + p)[0] == t && ([t] + p)[1..] == p;
  }

  lemma ChildAgreement(v: Value, w: Value, t: string, remove: set<Path>)
    requires [] !in remove && AgreeOutside(v, w, remove) && [t] !in remove
    ensures ChildrenAgree(v, w, t, Below(remove, t))
  {
    NoEmptyBelow(remove, t);
    forall p | !Covered(p, Below(remove, t))
      ensures KindOf(At(v, [t] + p)) == KindOf(At(w, [t] + p))
      ensures At(v, [t] + p) == match Child(v, t) case Some(c) => At(c, p) case None => None
      ensures At(w, [t] + p) == match Child(w, t) case Some(c) => At(c, p) case None => None
    {
      CoveredBelow(t, p, remove);
      AtBelow(v, t, p);
      AtBelow(w, t, p);
    }
    var root: Path := [];
    assert !Covered(root, Below(remove, t));
    assert KindOf(At(v, [t] + root)) == KindOf(At(w, [t] + root));
  }

  /** Equal pruned items: an index that is not named exists in both arrays or in neither. */
  lemma {:induction false} SameItemsAt(v: Value, w: Value, remove: set<Path>, i: nat, j: nat)
    requires v.Arr? && w.Arr? && i <= |v.items| && i <= |w.items| && i <= j
    requires PruneItems(v, remove, i) == PruneItems(w, remove, i) && [Numeral(j)] !in remove
    ensures j < |v.items| <==> j < |w.items|
    ensures j < |v.items| ==>
      Prune(v.items[j], Below(remove, Numeral(j))) == Prune(w.items[j], Below(remove, Numeral(j)))
    decreases j - i
  {
    if i == |v.items| {
      NoSurvivor(w, remove, i, j);
    } else if i == |w.items| {
      NoSurvivor(v, remove, i, j);
    } else {
      PrunedItemStep(v, remove, i);
      PrunedItemStep(w, remove, i);
      if i < j { SameItemsAt(v, w, remove, i + 1, j); }
    }
  }

  lemma PrunedItemStep(v: Value, remove: set<Path>, i: nat)
    requires v.Arr? && i < |v.items|
    ensures [Numeral(i)] in remove ==> PruneItems(v, remove, i) == PruneItems(v, remove, i + 1)
    ensures [Numeral(i)] !in remove ==>
      && PruneItems(v, remove, i) != []
      && PruneItems(v, remove, i)[0] == Prune(v.items[i], Below(remove, Numeral(i)))
      && PruneItems(v, remove, i)[1..] == PruneItems(v, remove, i + 1)
  {
  }

  lemma {:induction false} NoSurvivor(v: Value, remove: set<Path>, i: nat, j: nat)
    requires v.Arr? && i <= |v.items| && i <= j && PruneItems(v, remove, i) == [] && [Numeral(j)] !in remove
    ensures j >= |v.items|
    decreases j - i
  {
    if i < |v.items| {
      PrunedItemStep(v, remove, i);
      if i < j { NoSurvivor(v, remove, i + 1, j); }
    }
  }

  lemma {:induction false} SameSurvivors(v: Value, w: Value, remove: set<Path>, i: nat)
    requires v.Arr? && w.Arr? && i <= |v.items| && i <= |w.items|
    requires forall j :: j >= i && [Numeral(j)] !in remove ==>
      (j < |v.items| <==> j < |w.items|)
      && (j < |v.items| && j < |w.items| ==>
          Prune(v.items[j], Below(remove, Numeral(j))) == Prune(w.items[j], Below(remove, Numeral(j))))
    ensures PruneItems(v, remove, i) == PruneItems(w, remove, i)
    decreases |v.items| + |w.items| - i
  {
    if i < |v.items| && i < |w.items| {
      SameSurvivors(v, w, remove, i + 1);
    } else if i < |v.items| {
      NothingSurvives(v, remove, i);
    } else if i < |w.items| {
      NothingSurvives(w, remove, i);
    }
  }

  lemma {:induction false} NothingSurvives(v: Value, remove: set<Path>, i: nat)
    requires v.Arr? && i <= |v.items|
    requires forall j :: i <= j < |v.items| ==> [Numeral(j)] in remove
    ensures PruneItems(v, remove, i) == []
    decreases |v.items| - i
  {
    if i < |v.items| { NothingSurvives(v, remove, i + 1); }
  }

  /**
   Two documents have equal pruned forms if and only if they agree at every position outside the
   named ones.
  */
  lemma {:induction false} PrunedEqualIffAgree(v: Value, w: Value, remove: set<Path>)
    requires [] !in remove
    ensures Prune(v, remove) == Prune(w, remove) <==> AgreeOutside(v, w, remove)
    decreases v
  {
    AgreementSplits(v, w, remove);
    if v.Obj? && w.Obj? {
      PrunedObjects(v, w, remove);
    } else if v.Arr? && w.Arr? {
      PrunedArrays(v, w, remove);
    }
  }

  lemma {:induction false} PrunedObjects(v: Value, w: Value, remove: set<Path>)
    requires [] !in remove && v.Obj? && w.Obj?
    ensures Prune(v, remove) == Prune(w, remove) <==>
      forall t :: [t] !in remove ==> ChildrenAgree(v, w, t, Below(remove, t))
    decreases v, 0
  {
    var a, b := Prune(v, remove).fields, Prune(w, remove).fields;
    forall t | [t] !in remove
      ensures t in v.fields && t in w.fields ==> (a[t] == b[t] <==> ChildrenAgree(v, w, t, Below(remove, t)))
      ensures t in a <==> t in v.fields
      ensures t in b <==> t in w.fields
    {
      NoEmptyBelow(remove, t);
      if t in v.fields && t in w.fields {
        PrunedEqualIffAgree(v.fields[t], w.fields[t], Below(remove, t));
      }
    }
    if forall t :: [t] !in remove ==> ChildrenAgree(v, w, t, Below(remove, t)) {
      assert forall t :: t in a ==> t in b && a[t] == b[t];
      assert a.Keys == b.Keys;
      assert a == b;
    }
    if a == b {
      forall t | [t] !in remove
        ensures ChildrenAgree(v, w, t, Below(remove, t))
      {
        assert t in a <==> t in b;
      }
    }
  }

  lemma {:induction false} PrunedArrays(v: Value, w: Value, remove: set<Path>)
    requires [] !in remove && v.Arr? && w.Arr?
    ensures Prune(v, remove) == Prune(w, remove) <==>
      forall t :: [t] !in remove ==> ChildrenAgree(v, w, t, Below(remove, t))
    decreases v, 0
  {
    forall j: nat | [Numeral(j)] !in remove
      ensures ChildrenAgree(v, w, Numeral(j), Below(remove, Numeral(j))) <==> SameItem(v, w, remove, j)
    {
      NoEmptyBelow(remove, Numeral(j));
      IndexOfNumeral(j, |v.items|);
      IndexOfNumeral(j, |w.items|);
      if j < |v.items| && j < |w.items| {
        PrunedEqualIffAgree(v.items[j], w.items[j], Below(remove, Numeral(j)));
      }
    }
    if forall t :: [t] !in remove ==> ChildrenAgree(v, w, t, Below(remove, t)) {
      forall j: nat | [Numeral(j)] !in remove
        ensures SameItem(v, w, remove, j)
      {
        assert ChildrenAgree(v, w, Numeral(j), Below(remove, Numeral(j)));
      }
      SameSurvivors(v, w, remove, 0);
    }
    if Prune(v, remove) == Prune(w, remove) {
      forall t | [t] !in remove
        ensures ChildrenAgree(v, w, t, Below(remove, t))
      {
        if AllDigits(t) && t != "" && !LeadingZero(t) {
          ValueRoundTrip(t);
          SameItemsAt(v, w, remove, 0, ValueOf(t));
          assert SameItem(v, w, remove, ValueOf(t));
        }
      }
    }
  }

  ghost predicate SameItem(v: Value, w: Value, remove: set<Path>, j: nat)
    requires v.Arr? && w.Arr?
  {
    && (j < |v.items| <==> j < |w.items|)
    && (j < |v.items| && j < |w.items| ==>
        Prune(v.items[j], Below(remove, Numeral(j))) == Prune(w.items[j], Below(remove, Numeral(j))))
  }
}
