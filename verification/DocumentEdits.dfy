/**
 Changes to a document that keep its pointers resolving, and where they show: in
 the document, in its normal form, and in the normal form of what pruning leaves.
*/
module DocumentEdits {
  import opened Wrappers
  import opened Decimal
  import opened TextOrder
  import opened Json
  import opened Canonical
  import opened Pointers

  // -------------------------------------------------------------------------
  // Another node at one position
  // -------------------------------------------------------------------------

  /** The document with `b` as its node at `x`. */
  function PutAt(v: Value, x: Path, b: Value): Value
    requires At(v, x).Some?
    decreases |x|
  {
    if x == [] then b
    else
      var c := PutAt(Child(v, x[0]).value, x[1..], b);
      match v
      case Obj(fields) => Obj(fields[x[0] := c])
      case Arr(items) => Arr(items[ValueOf(x[0]) := c])
      case _ => v
  }

  /** Every pointer that resolves in `a` resolves in `b`. */
  ghost predicate ResolvesMore(a: Value, b: Value) {
    forall t :: Resolve(a, t).Some? ==> Resolve(b, t).Some?
  }

  lemma {:induction false} PutKeepsResolving(v: Value, x: Path, b: Value, t: Path)
    requires At(v, x).Some? && ResolvesMore(At(v, x).value, b) && Resolve(v, t).Some?
    ensures Resolve(PutAt(v, x, b), t).Some?
    decreases |t|
  {
    if x != [] && t != [] {
      var c := Step(v, t[0]).value;
      var d := Child(v, x[0]).value;
      if Step(PutAt(v, x, b), t[0]) != Some(c) {
        assert c == d && Step(PutAt(v, x, b), t[0]) == Some(PutAt(d, x[1..], b));
        PutKeepsResolving(d, x[1..], b, t[1..]);
      }
    }
  }

  /** Away from the position nothing shows. */
  lemma {:induction false} PutShowsOnlyBelow(v: Value, x: Path, b: Value, p: Path)
    requires At(v, x).Some? && !(x <= p)
    ensures KindOf(At(PutAt(v, x, b), p)) == KindOf(At(v, p))
    decreases |p|
  {
    if p != [] {
      assert x == [x[0]] + x[1..] && p == [p[0]] + p[1..];
      if x[0] == p[0] {
        assert Child(PutAt(v, x, b), p[0]) == Some(PutAt(Child(v, x[0]).value, x[1..], b));
        PutShowsOnlyBelow(Child(v, x[0]).value, x[1..], b, p[1..]);
      } else {
        if v.Arr? && IsIndexOf(p[0], |v.items|) {
          ValueRoundTrip(p[0]);
          ValueRoundTrip(x[0]);
          assert ValueOf(p[0]) != ValueOf(x[0]);
        }
        assert Child(PutAt(v, x, b), p[0]) == Child(v, p[0]);
      }
    }
  }

  lemma PutAgreesOutside(v: Value, x: Path, b: Value, r: Path, remove: set<Path>)
    requires At(v, x).Some? && r in remove && r <= x
    ensures AgreeOutside(v, PutAt(v, x, b), remove)
  {
    forall p | !Covered(p, remove)
      ensures KindOf(At(v, p)) == KindOf(At(PutAt(v, x, b), p))
    {
      assert !(r <= p);
      assert !(x <= p);
      PutShowsOnlyBelow(v, x, b, p);
    }
  }

  /** Seen from a path above the position, the node there is changed below. */
  lemma {:induction false} PutSeenFromAbove(v: Value, x: Path, b: Value, t: Path)
    requires At(v, x).Some? && t <= x
    ensures At(v, t).Some? && At(At(v, t).value, x[|t|..]) == At(v, x)
    ensures At(PutAt(v, x, b), t) == Some(PutAt(At(v, t).value, x[|t|..], b))
    decreases |t|
  {
    if t != [] {
      assert t[0] == x[0] && t[1..] <= x[1..] && x[1..][|t[1..]|..] == x[|t|..];
      var c := Child(v, x[0]).value;
      assert Child(PutAt(v, x, b), t[0]) == Some(PutAt(c, x[1..], b));
      PutSeenFromAbove(c, x[1..], b, t[1..]);
    } else {
      assert x[0..] == x;
    }
  }

  /** A pointer that leads to or above the position leads where it led. */
  lemma {:induction false} PutKeepsThePath(v: Value, x: Path, b: Value, t: Path)
    requires At(v, x).Some? && Resolve(v, t).Some? && PlainPath(v, t) <= x
    ensures Resolve(PutAt(v, x, b), t) == At(PutAt(v, x, b), PlainPath(v, t))
    decreases |t|
  {
    if t != [] {
      var k := PlainPath(v, t)[0];
      PlainStep(v, t[0]);
      var c := Child(v, k).value;
      assert x[0] == k && Step(v, t[0]) == Some(c);
      PutStep(v, x, b, t[0]);
      PutKeepsThePath(c, x[1..], b, t[1..]);
    }
  }

  lemma PutStep(v: Value, x: Path, b: Value, token: string)
    requires At(v, x).Some? && x != [] && Step(v, token).Some? && PlainToken(v, token) == x[0]
    ensures Step(PutAt(v, x, b), token) == Some(PutAt(Child(v, x[0]).value, x[1..], b))
    ensures Child(PutAt(v, x, b), x[0]) == Some(PutAt(Child(v, x[0]).value, x[1..], b))
  {
    if v.Arr? { IndexOfNumeral(ArrayIndex(token).value, |v.items|); }
  }

  lemma {:induction false} PutStaysIndexable(v: Value, x: Path, b: Value)
    requires At(v, x).Some? && Indexable(v) && Indexable(b)
    ensures Indexable(PutAt(v, x, b))
    decreases |x|
  {
    if x != [] {
      var c := Child(v, x[0]).value;
      assert Inside(v, v);
      forall w | Inside(w, c)
        ensures Inside(w, v)
      {
        if v.Arr? { assert Inside(w, v.items[ValueOf(x[0])]); }
      }
      PutStaysIndexable(c, x[1..], b);
      forall w | Inside(w, PutAt(v, x, b)) && w.Arr?
        ensures |w.items| < USIZE_LIMIT
      {
        if w != PutAt(v, x, b) { assert Inside(w, PutAt(c, x[1..], b)) || Inside(w, v); }
      }
    }
  }

  // -------------------------------------------------------------------------
  // Changes of the normal form
  // -------------------------------------------------------------------------

  lemma WritableMember(nfc: string -> string, v: Value, k: string)
    requires v.Obj? && k in v.fields && Canon(nfc, v).Ok?
    ensures Canon(nfc, v.fields[k]).Ok? && !Collides(nfc, v.fields)
    ensures nfc(k) in NfcKeys(nfc, v.fields) && Origin(nfc, v.fields, nfc(k)) == k
  {
    if Canon(nfc, v.fields[k]).Err? {
      FailureHasCause(nfc, v.fields[k]);
      var w :| Inside(w, v.fields[k]) && Stops(nfc, w, Canon(nfc, v.fields[k]).error);
      assert Inside(w, v);
      UnwritableFails(nfc, v, w);
    }
  }

  lemma WritableItem(nfc: string -> string, v: Value, i: nat)
    requires v.Arr? && i < |v.items| && Canon(nfc, v).Ok?
    ensures Canon(nfc, v.items[i]).Ok?
  {
    if Canon(nfc, v.items[i]).Err? { ItemFailsAll(nfc, v, 0, i); }
  }

  lemma NormalOfMember(nfc: string -> string, v: Value, k: string)
    requires v.Obj? && k in v.fields && !Collides(nfc, v.fields)
    ensures nfc(k) in Normal(nfc, v).fields
    ensures Normal(nfc, v).fields[nfc(k)] == Normal(nfc, v.fields[k])
  {
    assert nfc(k) in NfcKeys(nfc, v.fields) && Origin(nfc, v.fields, nfc(k)) == k;
  }

  lemma MemberChangeWritable(nfc: string -> string, v: Value, k: string, c: Value)
    requires v.Obj? && k in v.fields && Canon(nfc, v).Ok? && Canon(nfc, c).Ok?
    ensures Canon(nfc, Obj(v.fields[k := c])).Ok?
  {
    var w := Obj(v.fields[k := c]);
    WritableMember(nfc, v, k);
    assert w.fields.Keys == v.fields.Keys;
    assert !Collides(nfc, w.fields);
    if Canon(nfc, w).Err? {
      var j := FailingMember(nfc, w, SortedKeys(NfcKeys(nfc, w.fields)), 0);
      WritableMember(nfc, v, j);
    }
  }

  /** Replacing one member by a writable value of another normal form keeps the object writable and changes it. */
  lemma MemberChange(nfc: string -> string, v: Value, k: string, c: Value)
    requires v.Obj? && k in v.fields && Canon(nfc, v).Ok? && Canon(nfc, c).Ok?
    requires Normal(nfc, c) != Normal(nfc, v.fields[k])
    ensures Canon(nfc, Obj(v.fields[k := c])).Ok?
    ensures Normal(nfc, Obj(v.fields[k := c])) != Normal(nfc, v)
  {
    var w := Obj(v.fields[k := c]);
    MemberChangeWritable(nfc, v, k, c);
    WritableMember(nfc, v, k);
    WritableMember(nfc, w, k);
    NormalOfMember(nfc, v, k);
    NormalOfMember(nfc, w, k);
  }

  lemma ItemChangeWritable(nfc: string -> string, v: Value, i: nat, c: Value)
    requires v.Arr? && i < |v.items| && Canon(nfc, v).Ok? && Canon(nfc, c).Ok?
    ensures Canon(nfc, Arr(v.items[i := c])).Ok?
  {
    var w := Arr(v.items[i := c]);
    if Canon(nfc, w).Err? {
      var j := FailingItem(nfc, w, 0);
      if j != i { WritableItem(nfc, v, j); }
    }
  }

  lemma ItemChange(nfc: string -> string, v: Value, i: nat, c: Value)
    requires v.Arr? && i < |v.items| && Canon(nfc, v).Ok? && Canon(nfc, c).Ok?
    requires Normal(nfc, c) != Normal(nfc, v.items[i])
    ensures Canon(nfc, Arr(v.items[i := c])).Ok?
    ensures Normal(nfc, Arr(v.items[i := c])) != Normal(nfc, v)
  {
    ItemChangeWritable(nfc, v, i, c);
    NormalItemAt(nfc, v, 0, i);
    NormalItemAt(nfc, Arr(v.items[i := c]), 0, i);
  }

  lemma MoreItems(nfc: string -> string, v: Value)
    requires v.Arr? && Canon(nfc, v).Ok?
    ensures Canon(nfc, Arr(v.items + [Null])).Ok?
    ensures Normal(nfc, Arr(v.items + [Null])) != Normal(nfc, v)
  {
    var w := Arr(v.items + [Null]);
    if Canon(nfc, w).Err? {
      var j := FailingItem(nfc, w, 0);
      if j < |v.items| { WritableItem(nfc, v, j); }
    }
    assert |NormalItems(nfc, w, 0)| == |NormalItems(nfc, v, 0)| + 1;
  }

  lemma {:induction false} PutChangesNormal(nfc: string -> string, v: Value, x: Path, b: Value)
    requires At(v, x).Some? && Canon(nfc, v).Ok? && Canon(nfc, b).Ok?
    requires Normal(nfc, b) != Normal(nfc, At(v, x).value)
    ensures Canon(nfc, PutAt(v, x, b)).Ok? && Normal(nfc, PutAt(v, x, b)) != Normal(nfc, v)
    decreases |x|
  {
    if x != [] {
      var c := Child(v, x[0]).value;
      if v.Obj? {
        WritableMember(nfc, v, x[0]);
        PutChangesNormal(nfc, c, x[1..], b);
        MemberChange(nfc, v, x[0], PutAt(c, x[1..], b));
      } else {
        WritableItem(nfc, v, ValueOf(x[0]));
        PutChangesNormal(nfc, c, x[1..], b);
        ItemChange(nfc, v, ValueOf(x[0]), PutAt(c, x[1..], b));
      }
    }
  }

  lemma {:induction false} PutStaysWritable(nfc: string -> string, v: Value, x: Path, b: Value)
    requires At(v, x).Some? && Canon(nfc, v).Ok? && Canon(nfc, b).Ok?
    ensures Canon(nfc, PutAt(v, x, b)).Ok?
    decreases |x|
  {
    if x != [] {
      var c := Child(v, x[0]).value;
      if v.Obj? {
        WritableMember(nfc, v, x[0]);
        PutStaysWritable(nfc, c, x[1..], b);
        MemberChangeWritable(nfc, v, x[0], PutAt(c, x[1..], b));
      } else {
        WritableItem(nfc, v, ValueOf(x[0]));
        PutStaysWritable(nfc, c, x[1..], b);
        ItemChangeWritable(nfc, v, ValueOf(x[0]), PutAt(c, x[1..], b));
      }
    }
  }

  /** A node of a writable document is writable. */
  lemma {:induction false} WritableNode(nfc: string -> string, v: Value, t: Path)
    requires At(v, t).Some? && Canon(nfc, v).Ok?
    ensures Canon(nfc, At(v, t).value).Ok?
    decreases |t|
  {
    if t != [] {
      if v.Obj? { WritableMember(nfc, v, t[0]); } else { WritableItem(nfc, v, ValueOf(t[0])); }
      WritableNode(nfc, Child(v, t[0]).value, t[1..]);
    }
  }

  /** What a pointer finds in a writable document is writable. */
  lemma {:induction false} WritableWhereResolved(nfc: string -> string, v: Value, t: Path)
    requires Resolve(v, t).Some? && Canon(nfc, v).Ok?
    ensures Canon(nfc, Resolve(v, t).value).Ok?
    decreases |t|
  {
    if t != [] {
      if v.Obj? { WritableMember(nfc, v, t[0]); } else { WritableItem(nfc, v, ArrayIndex(t[0]).value); }
      WritableWhereResolved(nfc, Step(v, t[0]).value, t[1..]);
    }
  }

  // -------------------------------------------------------------------------
  // A change that is possible in every node
  // -------------------------------------------------------------------------

  /** Another document with the same shape and at least the same positions, but another normal form. */
  ghost function Tweak(v: Value): Value {
    match v
    case Null => Bool(true)
    case Arr(items) => Arr(items + [Null])
    case Obj(fields) =>
      if fields == map[] then Obj(map["x" := Null])
      else
        var k :| k in fields;
        Obj(fields[k := Tweak(fields[k])])
    case _ => Null
  }

  lemma {:induction false} TweakKeepsResolving(v: Value, t: Path)
    requires Resolve(v, t).Some?
    ensures Resolve(Tweak(v), t).Some?
    decreases |t|
  {
    if t != [] {
      var c := Step(v, t[0]).value;
      TweakKeepsResolving(c, t[1..]);
      assert Step(Tweak(v), t[0]) == Some(c) || Step(Tweak(v), t[0]) == Some(Tweak(c));
    }
  }

  lemma {:induction false} TweakChangesNormal(nfc: string -> string, v: Value)
    requires Canon(nfc, v).Ok?
    ensures Canon(nfc, Tweak(v)).Ok? && Normal(nfc, Tweak(v)) != Normal(nfc, v)
    decreases v
  {
    match v
    case Arr(_) => MoreItems(nfc, v);
    case Obj(fields) =>
      if fields == map[] {
        var w := Tweak(v);
        if Canon(nfc, w).Err? {
          var j := FailingMember(nfc, w, SortedKeys(NfcKeys(nfc, w.fields)), 0);
        }
        NormalOfMember(nfc, w, "x");
      } else {
        var k :| k in fields && Tweak(v) == Obj(fields[k := Tweak(fields[k])]);
        WritableMember(nfc, v, k);
        TweakChangesNormal(nfc, fields[k]);
        MemberChange(nfc, v, k, Tweak(fields[k]));
      }
    case _ =>
  }

  lemma {:induction false} TweakIndexable(v: Value)
    requires forall w :: Inside(w, v) && w.Arr? ==> |w.items| < USIZE_LIMIT - 1
    ensures Indexable(Tweak(v))
    decreases v
  {
    assert Inside(v, v);
    match v
    case Obj(fields) =>
      if fields != map[] {
        var k :| k in fields && Tweak(v) == Obj(fields[k := Tweak(fields[k])]);
        assert forall w :: Inside(w, fields[k]) ==> Inside(w, v);
        TweakIndexable(fields[k]);
        forall w | Inside(w, Tweak(v)) && w.Arr?
          ensures |w.items| < USIZE_LIMIT
        {
          assert Inside(w, Tweak(fields[k])) || Inside(w, v);
        }
      }
    case Arr(items) =>
      forall w | Inside(w, Tweak(v)) && w.Arr?
        ensures |w.items| < USIZE_LIMIT
      {
        if w != Tweak(v) {
          var i :| 0 <= i < |items + [Null]| && Inside(w, (items + [Null])[i]);
          assert i < |items| ==> Inside(w, v);
        }
      }
    case _ =>
  }

  // -------------------------------------------------------------------------
  // A change beside everything the node has
  // -------------------------------------------------------------------------

  /** No finite set of keys uses up all normalized keys. */
  ghost predicate Plentiful(nfc: string -> string) {
    forall keys: set<string> :: HasFresh(nfc, keys)
  }

  ghost predicate HasFresh(nfc: string -> string, keys: set<string>) {
    exists k :: IsFresh(nfc, k, keys)
  }

  predicate IsFresh(nfc: string -> string, k: string, keys: set<string>) {
    nfc(k) !in keys
  }

  /** A key that an object can be given. */
  ghost function FreshKey(nfc: string -> string, fields: map<string, Value>): (k: string)
    requires Plentiful(nfc)
    ensures nfc(k) !in NfcKeys(nfc, fields)
  {
    var keys := NfcKeys(nfc, fields);
    assert HasFresh(nfc, keys);
    var k :| IsFresh(nfc, k, keys);
    k
  }

  /** The node with one more item or member, or another scalar. */
  ghost function Extend(nfc: string -> string, v: Value): Value
    requires Plentiful(nfc)
  {
    match v
    case Arr(items) => Arr(items + [Null])
    case Obj(fields) => Obj(fields[FreshKey(nfc, fields) := Null])
    case Null => Bool(true)
    case _ => Null
  }

  lemma ExtendKeepsResolving(nfc: string -> string, v: Value)
    requires Plentiful(nfc)
    ensures ResolvesMore(v, Extend(nfc, v))
  {
    forall t | Resolve(v, t).Some?
      ensures Resolve(Extend(nfc, v), t).Some?
    {
      if t != [] {
        if v.Obj? {
          FreshIsNew(nfc, v.fields);
        }
        assert Step(Extend(nfc, v), t[0]) == Step(v, t[0]);
      }
    }
  }

  lemma FreshIsNew(nfc: string -> string, fields: map<string, Value>)
    requires Plentiful(nfc)
    ensures FreshKey(nfc, fields) !in fields
  {
    assert forall k :: k in fields ==> nfc(k) in NfcKeys(nfc, fields);
  }

  lemma ExtendIndexable(nfc: string -> string, v: Value)
    requires Plentiful(nfc) && forall w :: Inside(w, v) && w.Arr? ==> |w.items| < USIZE_LIMIT - 1
    ensures Indexable(Extend(nfc, v))
  {
    var u := Extend(nfc, v);
    assert Inside(v, v);
    forall w | Inside(w, u) && w.Arr?
      ensures |w.items| < USIZE_LIMIT
    {
      if w != u {
        match u
        case Obj(fields) =>
          var k :| k in fields && Inside(w, fields[k]);
          assert k in v.fields && fields[k] == v.fields[k] ==> Inside(w, v);
        case Arr(items) =>
          var i :| 0 <= i < |items| && Inside(w, items[i]);
          assert i < |v.items| ==> Inside(w, v);
        case _ =>
      }
    }
  }

  /** A member under a key that no other normalizes to. */
  lemma MoreMembers(nfc: string -> string, v: Value, k: string)
    requires v.Obj? && Canon(nfc, v).Ok? && nfc(k) !in NfcKeys(nfc, v.fields)
    ensures Canon(nfc, Obj(v.fields[k := Null])).Ok?
    ensures Normal(nfc, Obj(v.fields[k := Null])) != Normal(nfc, v)
  {
    var w := Obj(v.fields[k := Null]);
    assert !Collides(nfc, v.fields);
    assert !Collides(nfc, w.fields);
    if Canon(nfc, w).Err? {
      var j := FailingMember(nfc, w, SortedKeys(NfcKeys(nfc, w.fields)), 0);
      if j != k { WritableMember(nfc, v, j); }
    }
    NormalOfMember(nfc, w, k);
  }

  // What pruning leaves of the extended node

  lemma {:induction false} PruneItemsExtended(v: Value, remove: set<Path>, i: nat)
    requires v.Arr? && i <= |v.items| && [Numeral(|v.items|)] !in remove
    ensures PruneItems(Arr(v.items + [Null]), remove, i) == PruneItems(v, remove, i) + [Null]
    decreases |v.items| - i
  {
    var w := Arr(v.items + [Null]);
    if i < |v.items| {
      PruneItemsExtended(v, remove, i + 1);
    } else {
      assert PruneItems(w, remove, i + 1) == [] && Prune(Null, Below(remove, Numeral(i))) == Null;
    }
  }

  /** Every removed path resolves. */
  ghost predicate AllIn(v: Value, remove: set<Path>) {
    forall u :: u in remove ==> Resolve(v, u).Some?
  }

  lemma ExtendedPrunes(nfc: string -> string, v: Value, remove: set<Path>)
    requires Plentiful(nfc) && [] !in remove && AllIn(v, remove)
    ensures v.Arr? ==> Prune(Extend(nfc, v), remove) == Arr(Prune(v, remove).items + [Null])
    ensures v.Obj? ==> Prune(Extend(nfc, v), remove) == Obj(Prune(v, remove).fields[FreshKey(nfc, v.fields) := Null])
    ensures !v.Arr? && !v.Obj? ==> Prune(Extend(nfc, v), remove) == Extend(nfc, v) && Prune(v, remove) == v
  {
    if v.Arr? {
      var n := |v.items|;
      NumeralRoundTrip(n);
      assert [Numeral(n)] in remove ==> Resolve(v, [Numeral(n)]).Some?;
      PruneItemsExtended(v, remove, 0);
    }
    if v.Obj? {
      var k := FreshKey(nfc, v.fields);
      FreshIsNew(nfc, v.fields);
      assert [k] in remove ==> Resolve(v, [k]).Some?;
      assert Prune(Extend(nfc, v), remove).fields == Prune(v, remove).fields[k := Null];
    }
  }

  lemma {:induction false} PruneStaysWritable(nfc: string -> string, v: Value, remove: set<Path>)
    requires Canon(nfc, v).Ok?
    ensures Canon(nfc, Prune(v, remove)).Ok?
    decreases v, 1, 0
  {
    var w := Prune(v, remove);
    if Canon(nfc, w).Err? {
      match v
      case Obj(fields) =>
        assert !Collides(nfc, fields);
        assert !Collides(nfc, w.fields);
        var j := FailingMember(nfc, w, SortedKeys(NfcKeys(nfc, w.fields)), 0);
        WritableMember(nfc, v, j);
        PruneStaysWritable(nfc, fields[j], Below(remove, j));
      case Arr(items) =>
        var j := FailingItem(nfc, w, 0);
        PrunedItemsWritable(nfc, v, remove, 0, j);
      case _ =>
    }
  }

  lemma {:induction false} PrunedItemsWritable(nfc: string -> string, v: Value, remove: set<Path>, i: nat, j: nat)
    requires v.Arr? && Canon(nfc, v).Ok? && i <= |v.items| && j < |PruneItems(v, remove, i)|
    ensures Canon(nfc, PruneItems(v, remove, i)[j]).Ok?
    decreases v, 0, |v.items| - i
  {
    WritableItem(nfc, v, i);
    if [Numeral(i)] in remove {
      PrunedItemsWritable(nfc, v, remove, i + 1, j);
    } else if j > 0 {
      PrunedItemsWritable(nfc, v, remove, i + 1, j - 1);
    } else {
      PruneStaysWritable(nfc, v.items[i], Below(remove, Numeral(i)));
    }
  }

  lemma ExtendedShows(nfc: string -> string, v: Value, remove: set<Path>)
    requires Plentiful(nfc) && [] !in remove && AllIn(v, remove) && Canon(nfc, v).Ok?
    ensures Canon(nfc, Extend(nfc, v)).Ok?
    ensures Normal(nfc, Prune(Extend(nfc, v), remove)) != Normal(nfc, Prune(v, remove))
  {
    var w := Prune(v, remove);
    PruneStaysWritable(nfc, v, remove);
    ExtendedPrunes(nfc, v, remove);
    if v.Arr? {
      MoreItems(nfc, v);
      MoreItems(nfc, w);
    }
    if v.Obj? {
      var k := FreshKey(nfc, v.fields);
      assert NfcKeys(nfc, w.fields) <= NfcKeys(nfc, v.fields);
      MoreMembers(nfc, v, k);
      MoreMembers(nfc, w, k);
    }
  }

  // ... and of the document around it

  /** Another item in place of one that is kept. */
  lemma {:induction false} PruneOtherItem(v: Value, remove: set<Path>, j: nat, c: Value, i: nat) returns (m: nat)
    requires v.Arr? && i <= j < |v.items| && [Numeral(j)] !in remove
    ensures m < |PruneItems(v, remove, i)|
    ensures PruneItems(v, remove, i)[m] == Prune(v.items[j], Below(remove, Numeral(j)))
    ensures PruneItems(Arr(v.items[j := c]), remove, i) ==
        PruneItems(v, remove, i)[m := Prune(c, Below(remove, Numeral(j)))]
    decreases j - i
  {
    var w := Arr(v.items[j := c]);
    if i == j {
      m := 0;
      PruneSameRest(v, remove, j, c, i + 1);
    } else {
      m := PruneOtherItem(v, remove, j, c, i + 1);
      if [Numeral(i)] !in remove { m := m + 1; }
    }
  }

  lemma {:induction false} PruneSameRest(v: Value, remove: set<Path>, j: nat, c: Value, i: nat)
    requires v.Arr? && j < i <= |v.items|
    ensures PruneItems(Arr(v.items[j := c]), remove, i) == PruneItems(v, remove, i)
    decreases |v.items| - i
  {
    if i < |v.items| { PruneSameRest(v, remove, j, c, i + 1); }
  }

  lemma PruneOtherMember(v: Value, remove: set<Path>, k: string, c: Value)
    requires v.Obj? && k in v.fields && [k] !in remove
    ensures k in Prune(v, remove).fields && Prune(v, remove).fields[k] == Prune(v.fields[k], Below(remove, k))
    ensures Prune(Obj(v.fields[k := c]), remove) == Obj(Prune(v, remove).fields[k := Prune(c, Below(remove, k))])
  {
    assert Prune(Obj(v.fields[k := c]), remove).fields == Prune(v, remove).fields[k := Prune(c, Below(remove, k))];
  }

  lemma AllInBelow(v: Value, remove: set<Path>, k: string)
    requires AllIn(v, remove) && Child(v, k).Some? && Indexable(v)
    ensures AllIn(Child(v, k).value, Below(remove, k))
  {
    PositionResolves(v, [k]);
    assert [k][1..] == [];
    forall q | q in Below(remove, k)
      ensures Resolve(Child(v, k).value, q).Some?
    {
      var u :| u in remove && |u| > 0 && u[0] == k && u[1..] == q;
      assert Resolve(v, u).Some?;
    }
  }

  /** A position of a writable document that survives pruning by paths which all resolve. */
  ghost predicate Survives(nfc: string -> string, v: Value, x: Path, remove: set<Path>) {
    At(v, x).Some? && !Covered(x, remove) && AllIn(v, remove) && Indexable(v) && Canon(nfc, v).Ok?
  }

  lemma SurvivesBelow(nfc: string -> string, v: Value, x: Path, remove: set<Path>)
    requires Survives(nfc, v, x, remove) && x != []
    ensures [x[0]] !in remove && Survives(nfc, Child(v, x[0]).value, x[1..], Below(remove, x[0]))
  {
    var k := x[0];
    assert [] in remove ==> [] <= x;
    assert x == [k] + x[1..];
    CoveredBelow(k, x[1..], remove);
    AllInBelow(v, remove, k);
    IndexableChild(v, k);
    assert At(v, [k]) == Child(v, k) by { assert [k][1..] == []; }
    WritableNode(nfc, v, [k]);
  }

  /** Extending a node at a position that is not removed changes the normal form of what pruning leaves. */
  lemma {:induction false} UncoveredShows(nfc: string -> string, v: Value, x: Path, remove: set<Path>)
    requires Plentiful(nfc) && Survives(nfc, v, x, remove)
    ensures ShowsIn(nfc, v, PutAt(v, x, Extend(nfc, At(v, x).value)), remove)
    decreases |x|
  {
    var b := Extend(nfc, At(v, x).value);
    if x == [] {
      assert [] in remove ==> [] <= x;
      ExtendedShows(nfc, v, remove);
    } else {
      var c := Child(v, x[0]).value;
      SurvivesBelow(nfc, v, x, remove);
      UncoveredShows(nfc, c, x[1..], Below(remove, x[0]));
      var d := PutAt(c, x[1..], b);
      PruneStaysWritable(nfc, d, Below(remove, x[0]));
      ChangeShowsAbove(nfc, v, x[0], d, remove);
    }
  }

  ghost predicate ShowsIn(nfc: string -> string, v: Value, w: Value, remove: set<Path>) {
    Canon(nfc, w).Ok? && Normal(nfc, Prune(w, remove)) != Normal(nfc, Prune(v, remove))
  }

  lemma ChangeShowsAbove(nfc: string -> string, v: Value, k: string, d: Value, remove: set<Path>)
    requires Child(v, k).Some? && [k] !in remove && Canon(nfc, v).Ok? && Canon(nfc, Prune(d, Below(remove, k))).Ok?
    requires Normal(nfc, Prune(d, Below(remove, k))) != Normal(nfc, Prune(Child(v, k).value, Below(remove, k)))
    requires Canon(nfc, d).Ok?
    ensures v.Obj? ==> ShowsIn(nfc, v, Obj(v.fields[k := d]), remove)
    ensures v.Arr? ==> ShowsIn(nfc, v, Arr(v.items[ValueOf(k) := d]), remove)
  {
    var w := Prune(v, remove);
    if v.Obj? { MemberChangeWritable(nfc, v, k, d); } else { ItemChangeWritable(nfc, v, ValueOf(k), d); }
    PruneStaysWritable(nfc, v, remove);
    if v.Obj? {
      PruneOtherMember(v, remove, k, d);
      MemberChange(nfc, w, k, Prune(d, Below(remove, k)));
    }
    if v.Arr? {
      ValueRoundTrip(k);
      var m := PruneOtherItem(v, remove, ValueOf(k), d, 0);
      ItemChange(nfc, w, m, Prune(d, Below(remove, k)));
    }
  }
}
