/**
 The parser reads canonical texts and nothing else: a text is read as a
 document if and only if it is the canonical text of that document and the
 document is in normal form. Every choice the writer makes, from the escape of a
 control character to the order of the members, is thereby the only one.
*/
module CanonicalReader {
  import opened Wrappers
  import opened Decimal
  import opened TextOrder
  import opened Json
  import opened Canonical
  import opened CanonicalParser

  /** Normalization leaves what has been read alone. */
  function Same(t: string): string {
    t
  }

  // -------------------------------------------------------------------------
  // Strings
  // -------------------------------------------------------------------------

  /** The first character that is read was written as its escape. */
  lemma FirstCharRead(s: string) returns (c: char, tail: string)
    requires ParseText(s).Done? && s[0] != '"'
    ensures s == Escape(c) + tail && ParseText(s) == Prepend(c, ParseText(tail)) && |tail| < |s|
  {
    if s[0] != '\\' {
      c, tail := s[0], s[1..];
    } else if s[1] == 'u' {
      c, tail := ControlChar(s).value, s[6..];
      ControlCharIsEscape(s);
    } else {
      tail := s[2..];
      c := match s[1]
        case 'b' => 8 as char
        case 'f' => 12 as char
        case 'n' => '\n'
        case 'r' => '\r'
        case 't' => '\t'
        case _ => s[1];
      assert s == s[..2] + tail;
      assert Escape(c) == s[..2];
    }
  }

  lemma HexDigitIsRead(c: char)
    requires HexValue(c).Some?
    ensures HexValue(c).value < 16 && HexDigit(HexValue(c).value) == c
  {
  }

  lemma ControlCharIsEscape(s: string)
    requires |s| >= 2 && s[0] == '\\' && s[1] == 'u' && ControlChar(s).Some?
    ensures s == Escape(ControlChar(s).value) + s[6..]
  {
    var x, y := HexValue(s[4]).value, HexValue(s[5]).value;
    var n := 16 * x + y;
    assert n / 16 == x && n % 16 == y;
    HexDigitIsRead(s[4]);
    HexDigitIsRead(s[5]);
    assert Escape(n as char) == ['\\', 'u', '0', '0', s[4], s[5]];
    assert s[..6] == ['\\', 'u', '0', '0', s[4], s[5]];
  }

  lemma OneMoreEscape(c: char, more: string, rest: string)
    ensures Escape(c) + (EscapeAll(more) + "\"" + rest) == EscapeAll([c] + more) + "\"" + rest
  {
    assert ([c] + more)[1..] == more;
  }

  lemma {:induction false} TextIsEscaped(s: string, t: string, rest: string)
    requires ParseText(s) == Done(t, rest)
    ensures s == EscapeAll(t) + "\"" + rest
    decreases |s|
  {
    if s[0] == '"' {
      assert s == "" + "\"" + s[1..];
    } else {
      var c, tail := FirstCharRead(s);
      var more := t[1..];
      assert t == [c] + more;
      TextIsEscaped(tail, more, rest);
      OneMoreEscape(c, more, rest);
    }
  }

  // -------------------------------------------------------------------------
  // Numbers
  // -------------------------------------------------------------------------

  /** A text is a number as it is written, with something behind it. */
  ghost predicate WrittenNumber(s: string, v: Value, rest: string) {
    v.Num? && WriteNumber(v.n).Ok? && s == WriteNumber(v.n).value + rest
  }

  lemma WholeIsWritten(negative: bool, s: string, rest: string)
    requires var k := DigitRun(s); k > 0 && !LeadingZero(s[..k]) && rest == s[k..]
    requires negative ==> ValueOf(s[..DigitRun(s)]) != 0
    ensures WrittenNumber((if negative then "-" else "") + s,
        Num(Whole(Signed(negative, ValueOf(s[..DigitRun(s)])))), rest)
  {
    var digits := s[..DigitRun(s)];
    ValueRoundTrip(digits);
    assert s == digits + rest;
    assert "-" + s == "-" + digits + rest && "" + s == s;
  }

  lemma FractionIsWritten(negative: bool, whole: string, s: string, v: Value, rest: string)
    requires ParseFraction(negative, whole, s) == Done(v, rest)
    ensures WrittenNumber((if negative then "-" else "") + (whole + ("." + s)), v, rest)
  {
    var k := DigitRun(s);
    var sign := if negative then "-" else "";
    FloatIsWritten(v.n.f);
    assert s == s[..k] + rest;
    RegroupFloat(sign, whole, s[..k], rest);
  }

  lemma FloatIsWritten(f: Float)
    requires f.Finite? && (f.negative ==> !f.IsZero())
    ensures FoldZero(f) == f
    ensures FormatF64(f) == Ok((if f.negative then "-" else "") + (f.whole + ("." + FracText(f))))
  {
    FloatShowsDot(f);
  }

  lemma DotAt(s: string, k: nat)
    requires k < |s| && s[k] == '.'
    ensures s == s[..k] + ("." + s[k + 1..])
  {
  }

  lemma UnsignedRead(negative: bool, s: string, v: Value, rest: string)
    requires ParseUnsigned(negative, s) == Done(v, rest)
    ensures var k := DigitRun(s);
      && k > 0 && !LeadingZero(s[..k])
      && if k < |s| && s[k] == '.' then ParseFraction(negative, s[..k], s[k + 1..]) == Done(v, rest)
         else v == Num(Whole(Signed(negative, ValueOf(s[..k])))) && rest == s[k..] &&
              (negative ==> ValueOf(s[..k]) != 0)
  {
  }

  lemma UnsignedIsWritten(negative: bool, s: string, v: Value, rest: string)
    requires ParseUnsigned(negative, s) == Done(v, rest)
    ensures WrittenNumber((if negative then "-" else "") + s, v, rest)
  {
    var k := DigitRun(s);
    UnsignedRead(negative, s, v, rest);
    if k < |s| && s[k] == '.' {
      assert s == s[..k] + ("." + s[k + 1..]) by { DotAt(s, k); }
      FractionIsWritten(negative, s[..k], s[k + 1..], v, rest);
    } else {
      WholeIsWritten(negative, s, rest);
    }
  }

  lemma NumberIsWritten(s: string, v: Value, rest: string)
    requires ParseNumber(s) == Done(v, rest)
    ensures WrittenNumber(s, v, rest)
  {
    if StartsWith(s, '-') {
      UnsignedIsWritten(true, s[1..], v, rest);
      assert "-" + s[1..] == s;
    } else {
      UnsignedIsWritten(false, s, v, rest);
      assert "" + s == s;
    }
  }

  // -------------------------------------------------------------------------
  // Documents
  // -------------------------------------------------------------------------

  /** A text is the canonical text of a document, with something behind it. */
  ghost predicate Written(s: string, v: Value, rest: string) {
    Canon(Same, v).Ok? && s == Canon(Same, v).value + rest
  }

  lemma KeywordIsWritten(s: string, word: string, v: Value, rest: string)
    requires word != "" && Keyword(s, word, v) == Done(v, rest)
    requires Canon(Same, v) == Ok(word)
    ensures Written(s, v, rest)
  {
    assert s == s[..|word|] + s[|word|..];
  }

  lemma StringIsWritten(s: string, t: string, rest: string)
    requires StartsWith(s, '"') && ParseText(s[1..]) == Done(t, rest)
    ensures Written(s, Str(t), rest)
  {
    TextIsEscaped(s[1..], t, rest);
    assert s == "\"" + s[1..];
    assert s == "\"" + EscapeAll(t) + "\"" + rest;
  }

  /** The items from position `i` on are written as an array's are. */
  ghost predicate ItemsWritten(s: string, v: Value, i: nat, rest: string)
    requires v.Arr? && i <= |v.items|
  {
    CanonItems(Same, v, i).Ok? && s == CanonItems(Same, v, i).value + rest
  }

  lemma ItemStep(s: string, v: Value, i: nat, after: string, rest: string)
    requires v.Arr? && i < |v.items| && (i > 0 ==> StartsWith(s, ','))
    requires Written(if i == 0 then s else s[1..], v.items[i], after) && ItemsWritten(after, v, i + 1, rest)
    ensures ItemsWritten(s, v, i, rest)
  {
    assert CanonItems(Same, v, i).Ok? by { ItemIsWritable(v, i); }
    CommaFirst(s, i);
    assert s == CanonItems(Same, v, i).value + rest by { ItemsText(Same, v, i, rest); }
  }

  lemma ItemIsWritable(v: Value, i: nat)
    requires v.Arr? && i < |v.items| && Canon(Same, v.items[i]).Ok? && CanonItems(Same, v, i + 1).Ok?
    ensures CanonItems(Same, v, i).Ok?
  {
  }

  lemma CommaFirst(s: string, i: nat)
    requires i > 0 ==> StartsWith(s, ',')
    ensures s == Comma(i) + (if i == 0 then s else s[1..])
  {
  }

  lemma FirstItem(v: Value, i: nat, first: Value, others: seq<Value>)
    requires v.Arr? && i <= |v.items| && v.items[i..] == [first] + others
    ensures i < |v.items| && v.items[i] == first && v.items[i + 1..] == others
  {
    assert |v.items[i..]| == 1 + |others|;
    assert v.items[i] == v.items[i..][0] && v.items[i + 1..] == v.items[i..][1..];
  }

  /** How an item is read. */
  lemma ItemRead(s: string, first: bool, items: seq<Value>, rest: string)
    returns (item: Value, after: string, others: seq<Value>)
    requires ParseItems(s, first) == Done(items, rest) && !StartsWith(s, ']')
    ensures !first ==> StartsWith(s, ',')
    ensures items == [item] + others && |after| < |s|
    ensures ParseValue(if first then s else s[1..]) == Done(item, after)
    ensures ParseItems(after, false) == Done(others, rest)
  {
    var r := ParseValue(if first then s else s[1..]);
    item, after := r.value, r.rest;
    others := ParseItems(after, false).value;
  }

  lemma {:induction false} ItemsAreWritten(s: string, v: Value, i: nat, rest: string)
    requires v.Arr? && i <= |v.items| && ParseItems(s, i == 0) == Done(v.items[i..], rest)
    ensures ItemsWritten(s, v, i, rest)
    decreases |s|, 1
  {
    if StartsWith(s, ']') {
      assert s == "]" + s[1..];
    } else {
      var first, after, others := ItemRead(s, i == 0, v.items[i..], rest);
      FirstItem(v, i, first, others);
      ValueIsWritten(if i == 0 then s else s[1..], first, after);
      ItemsAreWritten(after, v, i + 1, rest);
      ItemStep(s, v, i, after, rest);
    }
  }

  /** The members from position `i` on are written as an object's are. */
  ghost predicate MembersWritten(s: string, v: Value, keys: seq<string>, i: nat, rest: string)
    requires v.Obj? && KeySet(keys) <= NfcKeys(Same, v.fields) && i <= |keys|
  {
    CanonMembers(Same, v, keys, i).Ok? && s == CanonMembers(Same, v, keys, i).value + rest
  }

  /** The key is among those from position `i` on. */
  ghost predicate KeyFrom(keys: seq<string>, i: nat, k: string) {
    exists j :: i <= j < |keys| && keys[j] == k
  }

  /** The members whose keys come from position `i` on. */
  function Later(v: Value, keys: seq<string>, i: nat): map<string, Value>
    requires v.Obj? && i <= |keys|
    decreases |keys| - i
  {
    if i == |keys| then map[]
    else Later(v, keys, i + 1)[keys[i] := if keys[i] in v.fields then v.fields[keys[i]] else Null]
  }

  lemma {:induction false} LaterHas(v: Value, keys: seq<string>, i: nat, k: string)
    requires v.Obj? && i <= |keys| && KeySet(keys) <= v.fields.Keys
    ensures k in Later(v, keys, i) <==> KeyFrom(keys, i, k)
    ensures k in Later(v, keys, i) ==> k in v.fields && Later(v, keys, i)[k] == v.fields[k]
    decreases |keys| - i
  {
    if i < |keys| {
      LaterHas(v, keys, i + 1, k);
      assert keys[i] in KeySet(keys);
    }
  }

  lemma LeastIsFirst(keys: seq<string>, i: nat, key: string)
    requires Ascending(keys) && i <= |keys| && KeyFrom(keys, i, key)
    requires forall k :: KeyFrom(keys, i, k) ==> k == key || Before(key, k)
    ensures i < |keys| && keys[i] == key
  {
    var j :| i <= j < |keys| && keys[j] == key;
    assert KeyFrom(keys, i, keys[i]);
    BeforeTotal(keys[i], key);
  }

  lemma OneKeyLess(keys: seq<string>, i: nat, k: string)
    requires Ascending(keys) && i < |keys|
    ensures KeyFrom(keys, i + 1, k) <==> KeyFrom(keys, i, k) && k != keys[i]
  {
    if j :| i + 1 <= j < |keys| && keys[j] == k {
      BeforeTotal(keys[i], keys[j]);
    }
  }

  lemma FirstMember(
    v: Value, keys: seq<string>, i: nat, key: string, item: Value, fields: map<string, Value>)
    requires v.Obj? && i <= |keys| && Ascending(keys) && KeySet(keys) <= v.fields.Keys
    requires Later(v, keys, i) == fields[key := item] && forall k :: k in fields ==> Before(key, k)
    ensures i < |keys| && keys[i] == key && key in v.fields && v.fields[key] == item
    ensures Later(v, keys, i + 1) == fields
  {
    var more := fields[key := item];
    assert key in more && more[key] == item;
    forall k
      ensures k in more <==> KeyFrom(keys, i, k)
    {
      LaterHas(v, keys, i, k);
    }
    LeastIsFirst(keys, i, key);
    LaterHas(v, keys, i, key);
    assert key !in fields by { BeforeTotal(key, key); }
    forall k
      ensures k in Later(v, keys, i + 1) <==> k in fields
      ensures k in fields ==> Later(v, keys, i + 1)[k] == fields[k]
    {
      OneKeyLess(keys, i, k);
      LaterHas(v, keys, i + 1, k);
      LaterHas(v, keys, i, k);
      assert k in fields <==> k in more && k != key;
    }
  }

  /** What stands here is the member with the key at position `i`, the text of its value last. */
  ghost predicate MemberAt(s: string, v: Value, keys: seq<string>, i: nat, text: string)
    requires v.Obj?
  {
    && i < |keys| && keys[i] in v.fields && (i > 0 ==> StartsWith(s, ','))
    && (if i == 0 then s else s[1..]) == "\"" + (EscapeAll(keys[i]) + "\"" + (":" + text))
  }

  lemma MemberStep(
    s: string, v: Value, keys: seq<string>, i: nat, text: string, item: Value, after: string, rest: string)
    requires v.Obj? && KeySet(keys) <= NfcKeys(Same, v.fields) && MemberAt(s, v, keys, i, text)
    requires v.fields[keys[i]] == item && Written(text, item, after)
    requires MembersWritten(after, v, keys, i + 1, rest)
    ensures MembersWritten(s, v, keys, i, rest)
  {
    assert CanonMembers(Same, v, keys, i).Ok? by { MemberIsWritable(v, keys, i, item); }
    CommaFirst(s, i);
    MembersText(Same, v, keys, i, rest);
  }

  lemma MemberIsWritable(v: Value, keys: seq<string>, i: nat, item: Value)
    requires v.Obj? && i < |keys| && KeySet(keys) <= NfcKeys(Same, v.fields)
    requires keys[i] in v.fields && v.fields[keys[i]] == item
    requires Canon(Same, item).Ok? && CanonMembers(Same, v, keys, i + 1).Ok?
    ensures keys[i] in KeySet(keys) && Origin(Same, v.fields, keys[i]) == keys[i]
    ensures CanonMembers(Same, v, keys, i).Ok?
  {
    assert keys[i] in KeySet(keys);
  }

  /** How a member is read. */
  lemma MemberRead(s: string, first: bool, fields: map<string, Value>, rest: string)
    returns (key: string, text: string, item: Value, after: string, others: map<string, Value>)
    requires ParseMembers(s, first) == Done(fields, rest) && !StartsWith(s, '}')
    ensures !first ==> StartsWith(s, ',')
    ensures fields == others[key := item] && forall k :: k in others ==> Before(key, k)
    ensures |after| < |s| && |text| < |s|
    ensures ParseValue(text) == Done(item, after) && ParseMembers(after, false) == Done(others, rest)
    ensures (if first then s else s[1..]) == "\"" + (EscapeAll(key) + "\"" + (":" + text))
  {
    var t := if first then s else s[1..];
    key, text, item, after := NameRead(t);
    others := ParseMembers(after, false).value;
  }

  lemma NameRead(t: string) returns (key: string, text: string, item: Value, after: string)
    requires ParseMember(t).Done?
    ensures ParseMember(t) == Done((key, item), after) && ParseValue(text) == Done(item, after)
    ensures |after| < |text| < |t|
    ensures t == "\"" + (EscapeAll(key) + "\"" + (":" + text))
  {
    var name := ParseText(t[1..]);
    key, text := name.value, name.rest[1..];
    item, after := ParseValue(text).value, ParseValue(text).rest;
    assert name.rest == ":" + text;
    TextIsEscaped(t[1..], key, name.rest);
    assert t == "\"" + t[1..];
  }

  /** What is read next is the member whose key comes next. */
  lemma MemberHere(s: string, v: Value, keys: seq<string>, i: nat, rest: string)
    returns (text: string, item: Value, after: string)
    requires v.Obj? && i <= |keys| && Ascending(keys) && KeySet(keys) <= v.fields.Keys
    requires ParseMembers(s, i == 0) == Done(Later(v, keys, i), rest) && !StartsWith(s, '}')
    ensures MemberAt(s, v, keys, i, text) && v.fields[keys[i]] == item
    ensures Written(text, item, after) && |after| < |s|
    ensures ParseMembers(after, false) == Done(Later(v, keys, i + 1), rest)
    decreases |s|, 0
  {
    var key, others;
    key, text, item, after, others := MemberRead(s, i == 0, Later(v, keys, i), rest);
    FirstMember(v, keys, i, key, item, others);
    ValueIsWritten(text, item, after);
  }

  lemma LastMemberRead(s: string, v: Value, keys: seq<string>, i: nat, rest: string)
    requires v.Obj? && KeySet(keys) <= NfcKeys(Same, v.fields) && i <= |keys|
    requires ParseMembers(s, i == 0) == Done(Later(v, keys, i), rest) && StartsWith(s, '}')
    ensures MembersWritten(s, v, keys, i, rest)
  {
    assert s == "}" + rest;
    if i < |keys| { SomeLater(v, keys, i); }
  }

  lemma SomeLater(v: Value, keys: seq<string>, i: nat)
    requires v.Obj? && i < |keys|
    ensures Later(v, keys, i) != map[]
  {
    assert keys[i] in Later(v, keys, i);
  }

  lemma {:induction false} MembersAreWritten(s: string, v: Value, keys: seq<string>, i: nat, rest: string)
    requires v.Obj? && i <= |keys| && Ascending(keys)
    requires KeySet(keys) <= NfcKeys(Same, v.fields) && KeySet(keys) <= v.fields.Keys
    requires ParseMembers(s, i == 0) == Done(Later(v, keys, i), rest)
    ensures MembersWritten(s, v, keys, i, rest)
    decreases |s|, 1
  {
    if StartsWith(s, '}') {
      LastMemberRead(s, v, keys, i, rest);
    } else {
      var text, item, after := MemberHere(s, v, keys, i, rest);
      MembersAreWritten(after, v, keys, i + 1, rest);
      MemberStep(s, v, keys, i, text, item, after, rest);
    }
  }

  lemma KeysAreTheirOwn(fields: map<string, Value>)
    ensures NfcKeys(Same, fields) == fields.Keys && !Collides(Same, fields)
    ensures forall k :: k in fields ==> Origin(Same, fields, k) == k
  {
    assert forall k :: Same(k) == k;
    forall k
      ensures k in NfcKeys(Same, fields) <==> k in fields
    {
      if k in fields { assert Same(k) in NfcKeys(Same, fields); }
    }
  }

  lemma ArrayIsWritten(s: string, v: Value, rest: string)
    requires v.Arr? && StartsWith(s, '[') && ItemsWritten(s[1..], v, 0, rest)
    ensures Written(s, v, rest)
  {
    assert v.items[0..] == v.items;
    var text := CanonItems(Same, v, 0).value;
    assert s == "[" + s[1..] && "[" + (text + rest) == "[" + text + rest;
  }

  lemma ObjectIsWritten(s: string, v: Value, keys: seq<string>, rest: string)
    requires v.Obj? && keys == SortedKeys(v.fields.Keys) && KeySet(keys) == v.fields.Keys
    requires StartsWith(s, '{') && MembersWritten(s[1..], v, keys, 0, rest)
    ensures Written(s, v, rest)
  {
    KeysAreTheirOwn(v.fields);
    var text := CanonMembers(Same, v, keys, 0).value;
    assert s == "{" + s[1..] && "{" + (text + rest) == "{" + text + rest;
  }

  /** Whatever is read was written. */
  lemma {:induction false} ValueIsWritten(s: string, v: Value, rest: string)
    requires ParseValue(s) == Done(v, rest)
    ensures Written(s, v, rest)
    decreases |s|, 0
  {
    match s[0]
    case 'n' => KeywordIsWritten(s, "null", v, rest);
    case 't' => KeywordIsWritten(s, "true", v, rest);
    case 'f' => KeywordIsWritten(s, "false", v, rest);
    case '"' => StringIsWritten(s, v.s, rest);
    case '[' =>
      assert v.items[0..] == v.items;
      ItemsAreWritten(s[1..], v, 0, rest);
      ArrayIsWritten(s, v, rest);
    case '{' =>
      var keys := SortedKeys(v.fields.Keys);
      KeysFromTheStart(v, keys);
      KeysAreTheirOwn(v.fields);
      MembersAreWritten(s[1..], v, keys, 0, rest);
      ObjectIsWritten(s, v, keys, rest);
    case _ => NumberIsWritten(s, v, rest);
  }

  lemma KeysFromTheStart(v: Value, keys: seq<string>)
    requires v.Obj? && KeySet(keys) == v.fields.Keys
    ensures Later(v, keys, 0) == v.fields
  {
    forall k
      ensures k in Later(v, keys, 0) <==> k in v.fields
      ensures k in v.fields ==> Later(v, keys, 0)[k] == v.fields[k]
    {
      LaterHas(v, keys, 0, k);
      assert k in KeySet(keys) <==> KeyFrom(keys, 0, k);
    }
  }

  /** A text is read as a document exactly when it is its canonical text, and the document is in normal form. */
  lemma CanonicalIffRead(s: string, v: Value)
    ensures Parse(s) == Some(v) <==> Canon(Same, v) == Ok(s) && Normal(Same, v) == v
  {
    if Parse(s) == Some(v) {
      ValueIsWritten(s, v, "");
      assert Canon(Same, v).value + "" == Canon(Same, v).value;
      CanonicalRoundTrip(Same, v);
    }
    if Canon(Same, v) == Ok(s) && Normal(Same, v) == v {
      CanonicalRoundTrip(Same, v);
    }
  }

  /** Normalized first or as it is written: the text is the same. */
  lemma NormalHasTheSameText(nfc: string -> string, v: Value)
    requires Canon(nfc, v).Ok?
    ensures Canon(Same, Normal(nfc, v)) == Canon(nfc, v)
  {
    CanonicalRoundTrip(nfc, v);
    CanonicalIffRead(Canon(nfc, v).value, Normal(nfc, v));
  }
}
