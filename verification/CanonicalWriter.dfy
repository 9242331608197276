/**
 The order of object members in the two canonical writers, and the Rust writer.

 The Rust writer appends to one growing buffer and sorts a vector of key-value
 pairs by byte order; the Python writer fills a dictionary and sorts its items by
 code point. Both emit object members in the same sequence, and the buffer ends
 up extended by exactly `Canonical.Canon`. `PythonWriter` has the Python writer.
*/
module CanonicalWriter {
  import opened Wrappers
  import opened TextOrder
  import opened Json
  import opened Canonical

  type Pair = (string, Value)

  ghost function KeysOf(pairs: seq<Pair>): seq<string> {
    seq(|pairs|, i requires 0 <= i < |pairs| => pairs[i].0)
  }

  /** No pair is ordered before a pair ahead of it; equal keys may still be neighbours. */
  ghost predicate Ordered(pairs: seq<Pair>) {
    forall i, j :: 0 <= i < j < |pairs| ==> !Before(pairs[j].0, pairs[i].0)
  }

  /** The comparison a library sort is given, when it is one of the two orders. */
  ghost predicate IsKeyOrder(less: (string, string) -> bool) {
    forall a, b :: less(a, b) <==> Before(a, b)
  }

  lemma ByteOrderIsKeyOrder()
    ensures IsKeyOrder((a, b) => ByteBefore(Utf8(a), Utf8(b)))
  {
    forall a, b
      ensures ByteBefore(Utf8(a), Utf8(b)) <==> Before(a, b)
    {
      Utf8KeepsOrder(a, b);
    }
  }

  /** Puts one pair behind every pair it does not precede. */
  method InsertPair(sorted: seq<Pair>, p: Pair, less: (string, string) -> bool) returns (r: seq<Pair>)
    requires Ordered(sorted) && IsKeyOrder(less)
    ensures Ordered(r) && multiset(r) == multiset(sorted) + multiset{p}
  {
    var k := |sorted|;
    while k > 0 && less(p.0, sorted[k - 1].0)
      invariant 0 <= k <= |sorted|
      invariant forall i :: k <= i < |sorted| ==> Before(p.0, sorted[i].0)
    {
      k := k - 1;
    }
    r := sorted[..k] + [p] + sorted[k..];
    Inserted(sorted, p, k);
  }

  lemma Inserted(sorted: seq<Pair>, p: Pair, k: nat)
    requires Ordered(sorted) && k <= |sorted|
    requires forall n :: k <= n < |sorted| ==> Before(p.0, sorted[n].0)
    requires k > 0 ==> !Before(p.0, sorted[k - 1].0)
    ensures var r := sorted[..k] + [p] + sorted[k..];
      Ordered(r) && multiset(r) == multiset(sorted) + multiset{p}
  {
    var r := sorted[..k] + [p] + sorted[k..];
    assert multiset(r) == multiset(sorted) + multiset{p} by { assert sorted == sorted[..k] + sorted[k..]; }
    forall i, j | 0 <= i < j < |r|
      ensures !Before(r[j].0, r[i].0)
    {
      InsertedOrder(sorted, p, k, i, j);
    }
  }

  lemma InsertedOrder(sorted: seq<Pair>, p: Pair, k: nat, i: nat, j: nat)
    requires Ordered(sorted) && k <= |sorted| && i < j < |sorted| + 1
    requires forall n :: k <= n < |sorted| ==> Before(p.0, sorted[n].0)
    requires k > 0 ==> !Before(p.0, sorted[k - 1].0)
    ensures var r := sorted[..k] + [p] + sorted[k..]; !Before(r[j].0, r[i].0)
  {
    if i == k {
      BeforeTotal(p.0, sorted[j - 1].0);
    } else if j == k && i < k - 1 {
      var last := sorted[k - 1].0;
      BeforeTotal(sorted[i].0, last);
      if Before(p.0, sorted[i].0) && Before(sorted[i].0, last) {
        BeforeTransitive(p.0, sorted[i].0, last);
      }
    }
  }

  /** A stable sort by key. */
  method SortPairs(pairs: seq<Pair>, less: (string, string) -> bool) returns (r: seq<Pair>)
    requires IsKeyOrder(less)
    ensures Ordered(r) && multiset(r) == multiset(pairs)
  {
    r := [];
    for i := 0 to |pairs|
      invariant Ordered(r) && multiset(r) == multiset(pairs[..i])
    {
      r := InsertPair(r, pairs[i], less);
      assert pairs[..i + 1] == pairs[..i] + [pairs[i]];
    }
    assert pairs[..|pairs|] == pairs;
  }

  /** `pairs` lists every member of the object once, under its normalized key. */
  ghost predicate Lists(nfc: string -> string, fields: map<string, Value>, pairs: seq<Pair>) {
    && (forall p :: p in pairs ==> exists k :: k in fields && p == (nfc(k), fields[k]))
    && (forall k :: k in fields ==> (nfc(k), fields[k]) in pairs)
  }

  /** The members of an object in the order both writers emit them. */
  ghost predicate InOrder(nfc: string -> string, fields: map<string, Value>, pairs: seq<Pair>) {
    && KeysOf(pairs) == SortedKeys(NfcKeys(nfc, fields))
    && forall i :: 0 <= i < |pairs| ==>
         pairs[i].0 in NfcKeys(nfc, fields) && pairs[i].1 == fields[Origin(nfc, fields, pairs[i].0)]
  }

  lemma OrderedListIsInOrder(nfc: string -> string, fields: map<string, Value>, pairs: seq<Pair>)
    requires Lists(nfc, fields, pairs) && Ordered(pairs) && !Collides(nfc, fields)
    requires forall i :: 0 < i < |pairs| ==> pairs[i - 1].0 != pairs[i].0
    ensures InOrder(nfc, fields, pairs)
  {
    var keys := KeysOf(pairs);
    forall i, j | 0 <= i < j < |keys|
      ensures Before(keys[i], keys[j])
    {
      StrictlyAscends(pairs, i, j);
    }
    forall k
      ensures k in KeySet(keys) <==> k in NfcKeys(nfc, fields)
    {
      if k in KeySet(keys) {
        var i :| 0 <= i < |keys| && keys[i] == k;
        assert pairs[i] in pairs;
      }
      if k in NfcKeys(nfc, fields) {
        var o := Origin(nfc, fields, k);
        var i :| 0 <= i < |pairs| && pairs[i] == (nfc(o), fields[o]);
        assert keys[i] == k;
      }
    }
    AscendingUnique(keys, SortedKeys(NfcKeys(nfc, fields)));
    forall i | 0 <= i < |pairs|
      ensures pairs[i].0 in NfcKeys(nfc, fields) && pairs[i].1 == fields[Origin(nfc, fields, pairs[i].0)]
    {
      assert pairs[i] in pairs;
    }
  }

  lemma {:induction false} StrictlyAscends(pairs: seq<Pair>, i: nat, j: nat)
    requires Ordered(pairs) && i < j < |pairs|
    requires forall n :: 0 < n < |pairs| ==> pairs[n - 1].0 != pairs[n].0
    ensures Before(pairs[i].0, pairs[j].0)
    decreases j - i
  {
    BeforeTotal(pairs[j - 1].0, pairs[j].0);
    if i < j - 1 {
      StrictlyAscends(pairs, i, j - 1);
      BeforeTransitive(pairs[i].0, pairs[j - 1].0, pairs[j].0);
    }
  }

  /** `pairs[i]` is the member that was written under `origins[i]`, and every member is listed once. */
  ghost predicate ListedBy(nfc: string -> string, fields: map<string, Value>, pairs: seq<Pair>, origins: seq<string>) {
    && |origins| == |pairs|
    && (forall i :: 0 <= i < |origins| ==>
          origins[i] in fields && pairs[i] == (nfc(origins[i]), fields[origins[i]]))
    && (forall i, j :: 0 <= i < j < |origins| ==> origins[i] != origins[j])
    && (forall k :: k in fields ==> k in origins)
  }

  /** The members, each under its normalized key. They may be visited in any order. */
  method ListPairs(nfc: string -> string, fields: map<string, Value>)
    returns (pairs: seq<Pair>, ghost origins: seq<string>)
    ensures ListedBy(nfc, fields, pairs, origins)
  {
    pairs, origins := [], [];
    var todo := fields.Keys;
    while todo != {}
      invariant todo <= fields.Keys
      invariant |origins| == |pairs| && forall i :: 0 <= i < |origins| ==>
        origins[i] in fields && origins[i] !in todo && pairs[i] == (nfc(origins[i]), fields[origins[i]])
      invariant forall i, j :: 0 <= i < j < |origins| ==> origins[i] != origins[j]
      invariant forall k :: k in fields && k !in todo ==> k in origins
      decreases |todo|
    {
      var k :| k in todo;
      todo := todo - {k};
      pairs := pairs + [(nfc(k), fields[k])];
      origins := origins + [k];
    }
  }

  /** The members as the Rust writer emits them: normalize, sort by bytes, refuse equal neighbours. */
  method SortedPairs(nfc: string -> string, fields: map<string, Value>) returns (r: Option<seq<Pair>>)
    ensures r.None? <==> Collides(nfc, fields)
    ensures r.Some? ==> InOrder(nfc, fields, r.value)
  {
    var listed, origins := ListPairs(nfc, fields);
    ByteOrderIsKeyOrder();
    var pairs := SortPairs(listed, (a, b) => ByteBefore(Utf8(a), Utf8(b)));
    var i := 1;
    while i < |pairs|
      invariant 1 <= i
      invariant forall j :: 0 < j < i && j < |pairs| ==> pairs[j - 1].0 != pairs[j].0
    {
      if pairs[i - 1].0 == pairs[i].0 {
        EqualNeighboursCollide(nfc, fields, listed, origins, pairs, i);
        return None;
      }
      i := i + 1;
    }
    NoEqualNeighboursNoCollision(nfc, fields, listed, origins, pairs);
    SortedStillLists(nfc, fields, listed, pairs, origins);
    OrderedListIsInOrder(nfc, fields, pairs);
    return Some(pairs);
  }

  lemma SortedStillLists(nfc: string -> string, fields: map<string, Value>,
                         listed: seq<Pair>, pairs: seq<Pair>, origins: seq<string>)
    requires ListedBy(nfc, fields, listed, origins) && multiset(pairs) == multiset(listed)
    ensures Lists(nfc, fields, pairs)
  {
    forall p | p in pairs
      ensures exists k :: k in fields && p == (nfc(k), fields[k])
    {
      assert p in multiset(listed);
    }
    forall k | k in fields
      ensures (nfc(k), fields[k]) in pairs
    {
      var i :| 0 <= i < |origins| && origins[i] == k;
      assert listed[i] in multiset(pairs);
    }
  }

  /** In a list, a value that two positions hold is counted twice. */
  lemma TwicePresent<T>(s: seq<T>, i: nat, j: nat)
    requires i < j < |s| && s[i] == s[j]
    ensures multiset(s)[s[i]] >= 2
  {
    assert s == s[..i] + [s[i]] + s[i + 1..j] + [s[j]] + s[j + 1..];
  }

  lemma EqualNeighboursCollide(nfc: string -> string, fields: map<string, Value>, listed: seq<Pair>,
                               origins: seq<string>, pairs: seq<Pair>, i: nat)
    requires ListedBy(nfc, fields, listed, origins) && multiset(pairs) == multiset(listed)
    requires 0 < i < |pairs| && pairs[i - 1].0 == pairs[i].0
    ensures Collides(nfc, fields)
  {
    var p, q := pairs[i - 1], pairs[i];
    assert p in multiset(listed) && q in multiset(listed);
    var a :| 0 <= a < |listed| && listed[a] == p;
    if p == q {
      TwicePresent(pairs, i - 1, i);
      var b := OtherPosition(listed, a);
      assert origins[a] != origins[b];
    } else {
      var b :| 0 <= b < |listed| && listed[b] == q;
      assert origins[a] != origins[b];
    }
  }

  lemma OtherPosition<T>(s: seq<T>, a: nat) returns (b: nat)
    requires a < |s| && multiset(s)[s[a]] >= 2
    ensures b < |s| && b != a && s[b] == s[a]
  {
    var rest := s[..a] + s[a + 1..];
    assert s == s[..a] + [s[a]] + s[a + 1..];
    assert multiset(rest)[s[a]] >= 1;
    var c :| 0 <= c < |rest| && rest[c] == s[a];
    b := if c < a then c else c + 1;
  }

  lemma NoEqualNeighboursNoCollision(nfc: string -> string, fields: map<string, Value>, listed: seq<Pair>,
                                     origins: seq<string>, pairs: seq<Pair>)
    requires ListedBy(nfc, fields, listed, origins) && multiset(pairs) == multiset(listed) && Ordered(pairs)
    requires forall j :: 0 < j < |pairs| ==> pairs[j - 1].0 != pairs[j].0
    ensures !Collides(nfc, fields)
  {
    forall k, l | k in fields && l in fields && k != l
      ensures nfc(k) != nfc(l)
    {
      var a :| 0 <= a < |origins| && origins[a] == k;
      var b :| 0 <= b < |origins| && origins[b] == l;
      assert listed[a] in multiset(pairs) && listed[b] in multiset(pairs);
      var i :| 0 <= i < |pairs| && pairs[i] == listed[a];
      var j := DistinctPosition(listed, pairs, a, b, i);
      StrictlyAscends(pairs, if i < j then i else j, if i < j then j else i);
      BeforeTotal(nfc(k), nfc(l));
    }
  }

  lemma DistinctPosition<T>(listed: seq<T>, pairs: seq<T>, a: nat, b: nat, i: nat) returns (j: nat)
    requires multiset(pairs) == multiset(listed) && a < |listed| && b < |listed| && a != b
    requires i < |pairs| && pairs[i] == listed[a]
    ensures j < |pairs| && j != i && pairs[j] == listed[b]
  {
    if listed[a] == listed[b] {
      TwicePresent(listed, if a < b then a else b, if a < b then b else a);
      j := OtherPosition(pairs, i);
    } else {
      assert listed[b] in multiset(pairs);
      j :| 0 <= j < |pairs| && pairs[j] == listed[b];
    }
  }

  /** A dictionary that holds each member under its normalized key. */
  ghost predicate Holds(nfc: string -> string, fields: map<string, Value>, normalized: map<string, Value>) {
    && normalized.Keys == NfcKeys(nfc, fields)
    && forall k :: k in fields ==> normalized[nfc(k)] == fields[k]
  }

  /** Fills a dictionary under the normalized keys, stopping at a key that is already there. */
  method FillDictionary(nfc: string -> string, fields: map<string, Value>) returns (r: Option<map<string, Value>>)
    ensures r.None? <==> Collides(nfc, fields)
    ensures r.Some? ==> Holds(nfc, fields, r.value)
  {
    var normalized: map<string, Value> := map[];
    var todo := fields.Keys;
    while todo != {}
      invariant todo <= fields.Keys
      invariant forall k :: k in fields && k !in todo ==> nfc(k) in normalized && normalized[nfc(k)] == fields[k]
      invariant forall n :: n in normalized ==> exists k :: k in fields && k !in todo && nfc(k) == n
      invariant forall a, b :: a in fields && b in fields && a !in todo && b !in todo && a != b ==> nfc(a) != nfc(b)
      decreases |todo|
    {
      var k :| k in todo;
      todo := todo - {k};
      if nfc(k) in normalized { return None; }
      normalized := normalized[nfc(k) := fields[k]];
    }
    return Some(normalized);
  }

  /**
   The members as the Python writer emits them: fill a dictionary under the normalized keys, refuse
   a key that is already there, sort the dictionary's items by code point.
  */
  method SortedItems(nfc: string -> string, fields: map<string, Value>) returns (r: Option<seq<Pair>>)
    ensures r.None? <==> Collides(nfc, fields)
    ensures r.Some? ==> InOrder(nfc, fields, r.value)
  {
    var normalized := FillDictionary(nfc, fields);
    if normalized.None? { return None; }
    var listed, origins := ListPairs(s => s, normalized.value);
    var items := SortPairs(listed, (a, b) => Before(a, b));
    SortedStillLists(s => s, normalized.value, listed, items, origins);
    DistinctStayDistinct(listed, items);
    OrderedListIsInOrder(s => s, normalized.value, items);
    DictionaryInOrder(nfc, fields, normalized.value, items);
    return Some(items);
  }

  lemma DictionaryInOrder(
    nfc: string -> string, fields: map<string, Value>, normalized: map<string, Value>, items: seq<Pair>)
    requires Holds(nfc, fields, normalized) && InOrder(s => s, normalized, items)
    ensures InOrder(nfc, fields, items)
  {
    assert NfcKeys(s => s, normalized) == normalized.Keys == NfcKeys(nfc, fields);
    forall i | 0 <= i < |items|
      ensures items[i].1 == fields[Origin(nfc, fields, items[i].0)]
    {
      var k := items[i].0;
      assert Origin(s => s, normalized, k) == k && items[i].1 == normalized[k];
      assert normalized[nfc(Origin(nfc, fields, k))] == fields[Origin(nfc, fields, k)];
    }
  }

  lemma DistinctStayDistinct(listed: seq<Pair>, items: seq<Pair>)
    requires multiset(items) == multiset(listed)
    requires forall j, l :: 0 <= j < l < |listed| ==> listed[j].0 != listed[l].0
    ensures forall i :: 0 < i < |items| ==> items[i - 1].0 != items[i].0
  {
    forall i | 0 < i < |items|
      ensures items[i - 1].0 != items[i].0
    {
      assert items[i - 1] in multiset(listed);
      var a :| 0 <= a < |listed| && listed[a] == items[i - 1];
      if items[i - 1] == items[i] {
        TwicePresent(items, i - 1, i);
        var b := OtherPosition(listed, a);
        assert false;
      } else {
        assert items[i] in multiset(listed);
        var b :| 0 <= b < |listed| && listed[b] == items[i];
      }
    }
  }

  /** The order of the members is fixed by the object alone, so both writers emit the same sequence. */
  lemma SameSequence(nfc: string -> string, fields: map<string, Value>, rust: seq<Pair>, python: seq<Pair>)
    requires InOrder(nfc, fields, rust) && InOrder(nfc, fields, python)
    ensures rust == python
  {
    assert KeysOf(rust) == KeysOf(python);
    forall i | 0 <= i < |rust|
      ensures rust[i] == python[i]
    {
      assert rust[i].0 == KeysOf(rust)[i] == KeysOf(python)[i] == python[i].0;
    }
  }

  // -------------------------------------------------------------------------
  // The writer
  // -------------------------------------------------------------------------

  /** The growing output string. */
  class Buffer {
    var text: string

    constructor ()
      ensures text == ""
    {
      text := "";
    }

    method PushStr(s: string)
      modifies this
      ensures text == old(text) + s
    {
      text := text + s;
    }

    method WriteEscaped(s: string)
      modifies this
      ensures text == old(text) + EscapeAll(s)
    {
      for i := 0 to |s|
        invariant text + EscapeAll(s[i..]) == old(text) + EscapeAll(s)
      {
        EscapeStep(text, s, i);
        PushStr(Escape(s[i]));
      }
      assert s[|s|..] == "" && text + "" == text;
    }

    method WriteString(s: string)
      modifies this
      ensures text == old(text) + Quote(s)
    {
      PushStr("\"");
      WriteEscaped(s);
      PushStr("\"");
      QuoteText(old(text), s);
    }

    /**
     Appends the canonical form of a document. It succeeds exactly when the document is writable, and
     then appends exactly its canonical string.
    */
    method WriteValue(nfc: string -> string, v: Value) returns (error: Option<CanonError>)
      modifies this
      ensures error == (match Canon(nfc, v) case Ok(_) => None case Err(e) => Some(e))
      ensures error.None? ==> text == old(text) + Canon(nfc, v).value
      decreases v, 1
    {
      error := None;
      match v {
        case Null => PushStr("null");
        case Bool(b) => PushStr(if b then "true" else "false");
        case Num(n) =>
          var number := WriteNumber(n);
          if number.Err? { return Some(number.error); }
          PushStr(number.value);
        case Str(s) => WriteString(nfc(s));
        case Arr(_) => error := WriteItems(nfc, v);
        case Obj(_) => error := WriteMembers(nfc, v);
      }
    }

    method WriteItems(nfc: string -> string, v: Value) returns (error: Option<CanonError>)
      requires v.Arr?
      modifies this
      ensures error == (match Canon(nfc, v) case Ok(_) => None case Err(e) => Some(e))
      ensures error.None? ==> text == old(text) + Canon(nfc, v).value
      decreases v, 0
    {
      ghost var all := Canon(nfc, v);
      PushStr("[");
      SameEndStart(old(text), "[", CanonItems(nfc, v, 0));
      for i := 0 to |v.items|
        invariant SameEnd(old(text), all, text, CanonItems(nfc, v, i))
      {
        SameEndStep(old(text), all, text, Comma(i), Canon(nfc, v.items[i]), CanonItems(nfc, v, i + 1));
        PushStr(Comma(i));
        error := WriteValue(nfc, v.items[i]);
        if error.Some? { return; }
      }
      PushStr("]");
      return None;
    }

    /** Appends one member: what separates it from the member before, its key, a colon, its value. */
    method WriteMember(nfc: string -> string, comma: string, key: string, v: Value)
      returns (error: Option<CanonError>)
      modifies this
      ensures error == (match Canon(nfc, v) case Ok(_) => None case Err(e) => Some(e))
      ensures error.None? ==> text == old(text) + (comma + Quote(key) + ":") + Canon(nfc, v).value
      decreases v, 2
    {
      PushStr(comma);
      WriteString(key);
      PushStr(":");
      assert text == old(text) + (comma + Quote(key) + ":");
      error := WriteValue(nfc, v);
    }

    method WriteMembers(nfc: string -> string, v: Value) returns (error: Option<CanonError>)
      requires v.Obj?
      modifies this
      ensures error == (match Canon(nfc, v) case Ok(_) => None case Err(e) => Some(e))
      ensures error.None? ==> text == old(text) + Canon(nfc, v).value
      decreases v, 0
    {
      var sorted := SortedPairs(nfc, v.fields);
      if sorted.None? { return Some(DuplicateKey); }
      var pairs := sorted.value;
      ghost var keys, all := SortedKeys(NfcKeys(nfc, v.fields)), Canon(nfc, v);
      PushStr("{");
      SameEndStart(old(text), "{", CanonMembers(nfc, v, keys, 0));
      for i := 0 to |pairs|
        invariant SameEnd(old(text), all, text, CanonMembers(nfc, v, keys, i))
      {
        MemberStep(nfc, v, pairs, i);
        SameEndStep(old(text), all, text, Comma(i) + Quote(keys[i]) + ":", Canon(nfc, pairs[i].1),
                    CanonMembers(nfc, v, keys, i + 1));
        error := WriteMember(nfc, Comma(i), pairs[i].0, pairs[i].1);
        if error.Some? { return; }
      }
      PushStr("}");
      return None;
    }
  }

  lemma EscapeStep(start: string, s: string, i: nat)
    requires i < |s|
    ensures start + EscapeAll(s[i..]) == start + Escape(s[i]) + EscapeAll(s[i + 1..])
  {
    assert s[i..][1..] == s[i + 1..];
  }

  lemma QuoteText(start: string, s: string)
    ensures start + "\"" + EscapeAll(s) + "\"" == start + Quote(s)
  {
  }

  /** Writing `rest` after `now` ends where writing `all` after `start` ends, with the same outcome. */
  ghost predicate SameEnd(start: string, all: Text, now: string, rest: Text) {
    if all.Ok? then rest.Ok? && start + all.value == now + rest.value else rest == all
  }

  lemma SameEndStart(start: string, opening: string, rest: Text)
    ensures SameEnd(start, Then(Ok(opening), rest), start + opening, rest)
  {
  }

  lemma SameEndStep(start: string, all: Text, now: string, before: string, item: Text, rest: Text)
    requires SameEnd(start, all, now, Then(Then(Ok(before), item), rest))
    ensures item.Err? ==> all == item
    ensures item.Ok? ==> forall after :: after == now + before + item.value ==> SameEnd(start, all, after, rest)
  {
    if item.Ok? && rest.Ok? {
      assert now + (before + item.value + rest.value) == now + before + item.value + rest.value;
    }
  }

  lemma MemberStep(nfc: string -> string, v: Value, pairs: seq<Pair>, i: nat)
    requires v.Obj? && InOrder(nfc, v.fields, pairs) && i < |pairs|
    ensures var keys := SortedKeys(NfcKeys(nfc, v.fields));
      && |keys| == |pairs| && pairs[i].0 == keys[i] && pairs[i].1 < v
      && CanonMembers(nfc, v, keys, i)
         == Then(Then(Ok(Comma(i) + Quote(keys[i]) + ":"), Canon(nfc, pairs[i].1)), CanonMembers(nfc, v, keys, i + 1))
  {
    assert pairs[i].0 == KeysOf(pairs)[i];
  }
}
