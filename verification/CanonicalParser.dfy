/**
 Reading canonical JSON back.

 `Parse` is the partner of `Canonical.Canon`: from the string of a document it
 recovers exactly the document's normal form, so two documents share a canonical
 string if and only if they share a normal form.
*/
module CanonicalParser {
  import opened Wrappers
  import opened Decimal
  import opened TextOrder
  import opened Json
  import opened Canonical

  /** A parsed value and the text after it. */
  datatype Parsed<+T> = Fail | Done(value: T, rest: string)

  function HexValue(c: char): Option<nat> {
    if '0' <= c <= '9' then Some(c as int - '0' as int)
    else if 'a' <= c <= 'f' then Some(c as int - 'a' as int + 10)
    else None
  }

  /** Control characters that have an escape of their own. */
  predicate HasShortEscape(n: nat) {
    n == 0x08 || n == 0x09 || n == 0x0A || n == 0x0C || n == 0x0D
  }

  /** The control character written as `\u00xy`, which is how the others are written. */
  function ControlChar(s: string): Option<char> {
    if |s| < 6 || s[2] != '0' || s[3] != '0' then None
    else match (HexValue(s[4]), HexValue(s[5]))
      case (Some(x), Some(y)) => if x < 2 && !HasShortEscape(16 * x + y) then Some((16 * x + y) as char) else None
      case _ => None
  }

  /** The rest of a string after its opening quote. */
  function ParseText(s: string): (r: Parsed<string>)
    ensures r.Done? ==> |r.rest| < |s|
    decreases |s|
  {
    if s == "" then Fail
    else if s[0] == '"' then Done("", s[1..])
    else if s[0] < ' ' then Fail
    else if s[0] != '\\' then Prepend(s[0], ParseText(s[1..]))
    else if |s| < 2 then Fail
    else match s[1]
      case '"' => Prepend('"', ParseText(s[2..]))
      case '\\' => Prepend('\\', ParseText(s[2..]))
      case 'b' => Prepend(8 as char, ParseText(s[2..]))
      case 'f' => Prepend(12 as char, ParseText(s[2..]))
      case 'n' => Prepend('\n', ParseText(s[2..]))
      case 'r' => Prepend('\r', ParseText(s[2..]))
      case 't' => Prepend('\t', ParseText(s[2..]))
      case 'u' => (match ControlChar(s) case Some(c) => Prepend(c, ParseText(s[6..])) case None => Fail)
      case _ => Fail
  }

  function Prepend(c: char, r: Parsed<string>): Parsed<string> {
    match r
    case Fail => Fail
    case Done(t, rest) => Done([c] + t, rest)
  }

  /** A number: a float exactly when there is a dot. Zero has no sign, and nothing has a leading zero. */
  function ParseNumber(s: string): (r: Parsed<Value>)
    ensures r.Done? ==> |r.rest| < |s|
  {
    if StartsWith(s, '-') then ParseUnsigned(true, s[1..]) else ParseUnsigned(false, s)
  }

  function ParseUnsigned(negative: bool, s: string): (r: Parsed<Value>)
    ensures r.Done? ==> |r.rest| < |s|
  {
    var k := DigitRun(s);
    if k == 0 || LeadingZero(s[..k]) then Fail
    else if k < |s| && s[k] == '.' then ParseFraction(negative, s[..k], s[k + 1..])
    else if negative && ValueOf(s[..k]) == 0 then Fail
    else Done(Num(Whole(Signed(negative, ValueOf(s[..k])))), s[k..])
  }

  function Signed(negative: bool, n: int): int {
    if negative then -n else n
  }

  function ParseFraction(negative: bool, whole: string, s: string): (r: Parsed<Value>)
    ensures r.Done? ==> |r.rest| < |s|
  {
    var k := DigitRun(s);
    var f := Finite(negative, whole, if s[..k] == "0" then "" else s[..k]);
    if k == 0 || !f.Valid() || (negative && f.IsZero()) then Fail else Done(Num(Real(f)), s[k..])
  }

  predicate StartsWith(s: string, c: char) {
    s != "" && s[0] == c
  }

  function Keyword(s: string, word: string, v: Value): (r: Parsed<Value>)
    requires word != ""
    ensures r.Done? ==> |r.rest| < |s|
  {
    if |word| <= |s| && s[..|word|] == word then Done(v, s[|word|..]) else Fail
  }

  /** One value at the front of a text. */
  function ParseValue(s: string): (r: Parsed<Value>)
    ensures r.Done? ==> |r.rest| < |s|
    decreases |s|, 0
  {
    if s == "" then Fail
    else match s[0]
      case 'n' => Keyword(s, "null", Null)
      case 't' => Keyword(s, "true", Bool(true))
      case 'f' => Keyword(s, "false", Bool(false))
      case '"' =>
        (match ParseText(s[1..]) case Done(t, rest) => Done(Str(t), rest) case Fail => Fail)
      case '[' =>
        (match ParseItems(s[1..], true) case Done(items, rest) => Done(Arr(items), rest) case Fail => Fail)
      case '{' =>
        (match ParseMembers(s[1..], true) case Done(fields, rest) => Done(Obj(fields), rest) case Fail => Fail)
      case _ => ParseNumber(s)
  }

  /** What is left of an array after its bracket (`first`) or after an item. */
  function ParseItems(s: string, first: bool): (r: Parsed<seq<Value>>)
    ensures r.Done? ==> |r.rest| < |s|
    decreases |s|, 1
  {
    if StartsWith(s, ']') then Done([], s[1..])
    else if !first && !StartsWith(s, ',') then Fail
    else
      match ParseValue(if first then s else s[1..])
      case Fail => Fail
      case Done(v, rest) =>
        match ParseItems(rest, false)
        case Fail => Fail
        case Done(items, rest') => Done([v] + items, rest')
  }

  /** What is left of an object after its brace (`first`) or after a member. Keys have to ascend. */
  function ParseMembers(s: string, first: bool): (r: Parsed<map<string, Value>>)
    ensures r.Done? ==> |r.rest| < |s|
    decreases |s|, 1
  {
    if StartsWith(s, '}') then Done(map[], s[1..])
    else if !first && !StartsWith(s, ',') then Fail
    else
      match ParseMember(if first then s else s[1..])
      case Fail => Fail
      case Done((key, v), rest) =>
        match ParseMembers(rest, false)
        case Fail => Fail
        case Done(fields, rest') =>
          if forall k :: k in fields ==> Before(key, k) then Done(fields[key := v], rest') else Fail
  }

  function ParseMember(s: string): (r: Parsed<(string, Value)>)
    ensures r.Done? ==> |r.rest| < |s|
    decreases |s|, 0
  {
    if !StartsWith(s, '"') then Fail
    else
      match ParseText(s[1..])
      case Fail => Fail
      case Done(key, rest) =>
        if !StartsWith(rest, ':') then Fail
        else
          match ParseValue(rest[1..])
          case Fail => Fail
          case Done(v, rest') => Done((key, v), rest')
  }

  function Parse(s: string): Option<Value> {
    match ParseValue(s)
    case Done(v, rest) => if rest == "" then Some(v) else None
    case Fail => None
  }

  // -------------------------------------------------------------------------
  // Strings read back
  // -------------------------------------------------------------------------

  lemma ShortEscapeReadsBack(c: char, t: string)
    requires |Escape(c)| == 2
    ensures ParseText(Escape(c) + t) == Prepend(c, ParseText(t))
  {
    var s := Escape(c) + t;
    assert s[0] == '\\' && s[1] == Escape(c)[1] && s[2..] == t;
  }

  lemma ControlEscapeReadsBack(c: char, t: string)
    requires |Escape(c)| == 6
    ensures ParseText(Escape(c) + t) == Prepend(c, ParseText(t))
  {
    var s := Escape(c) + t;
    var n := c as int;
    assert s[6..] == t;
    assert s[0] == '\\' && s[1] == 'u' && s[2] == '0' && s[3] == '0';
    assert s[4] == HexDigit(n / 16) && s[5] == HexDigit(n % 16);
    assert HexValue(s[4]) == Some(n / 16) && HexValue(s[5]) == Some(n % 16);
    assert ControlChar(s) == Some(c);
  }

  lemma EscapedCharReadsBack(c: char, t: string)
    ensures ParseText(Escape(c) + t) == Prepend(c, ParseText(t))
  {
    var s := Escape(c) + t;
    if |Escape(c)| == 1 {
      assert s[0] == c && s[1..] == t;
    } else if |Escape(c)| == 2 {
      ShortEscapeReadsBack(c, t);
    } else {
      ControlEscapeReadsBack(c, t);
    }
  }

  lemma {:induction false} TextReadsBack(s: string, rest: string)
    ensures ParseText(EscapeAll(s) + "\"" + rest) == Done(s, rest)
    decreases |s|
  {
    if s == "" {
      assert EscapeAll(s) + "\"" + rest == "\"" + rest;
    } else {
      var tail := EscapeAll(s[1..]) + "\"" + rest;
      assert EscapeAll(s) + "\"" + rest == Escape(s[0]) + tail;
      EscapedCharReadsBack(s[0], tail);
      TextReadsBack(s[1..], rest);
      assert s == [s[0]] + s[1..];
    }
  }

  // -------------------------------------------------------------------------
  // Numbers read back
  // -------------------------------------------------------------------------

  /** What follows a value inside a document never continues a number. */
  predicate EndsNumber(rest: string) {
    rest == "" || (!IsDigit(rest[0]) && rest[0] != '.')
  }

  lemma NumeralReadsBack(negative: bool, n: nat, rest: string)
    requires EndsNumber(rest) && (negative ==> n != 0)
    ensures ParseUnsigned(negative, Numeral(n) + rest) == Done(Num(Whole(Signed(negative, n))), rest)
  {
    NumeralRoundTrip(n);
    DigitRunStops(Numeral(n), rest);
    var s := Numeral(n) + rest;
    assert rest != "" ==> s[|Numeral(n)|] == rest[0];
  }

  predicate SignOrDigit(s: string) {
    s != "" && (s[0] == '-' || IsDigit(s[0]))
  }

  lemma NumberStarts(s: string)
    requires SignOrDigit(s)
    ensures ParseValue(s) == ParseNumber(s)
  {
    var c := s[0];
    assert c == '-' || '0' <= c <= '9';
    assert c != 'n' && c != 't' && c != 'f' && c != '"' && c != '[' && c != '{';
  }

  lemma SignedNumber(negative: bool, body: string)
    requires body != "" && IsDigit(body[0])
    ensures var s := (if negative then "-" else "") + body;
      SignOrDigit(s) && ParseNumber(s) == ParseUnsigned(negative, body)
  {
    var s := (if negative then "-" else "") + body;
    if negative { assert s[1..] == body; } else { assert s == body; }
  }

  lemma WholeReadsBack(i: int, rest: string)
    requires EndsNumber(rest)
    ensures var s := WriteNumber(Whole(i)).value + rest;
      SignOrDigit(s) && ParseNumber(s) == Done(Num(Whole(i)), rest)
  {
    var n := if i >= 0 then i else -i;
    var body := Numeral(n) + rest;
    assert body[0] == Numeral(n)[0] && IsDigit(Numeral(n)[0]);
    SignedNumber(i < 0, body);
    NumeralReadsBack(i < 0, n, rest);
    assert WriteNumber(Whole(i)).value + rest == (if i < 0 then "-" else "") + body by {
      assert i < 0 ==> "-" + Numeral(n) + rest == "-" + (Numeral(n) + rest);
      assert i >= 0 ==> "" + body == body;
    }
  }

  function FracText(f: Float): string
    requires f.Finite?
  {
    if f.frac == "" then "0" else f.frac
  }

  /** A finite float always shows a dot. */
  lemma FloatShowsDot(f: Float)
    requires f.Finite?
    ensures var g := FoldZero(f);
      FormatF64(f) == Ok((if g.negative then "-" else "") + (g.whole + ("." + FracText(g))))
  {
    var g := FoldZero(f);
    var s := Display(g);
    var sign := if g.negative then "-" else "";
    if g.frac == "" {
      forall i | 0 <= i < |s|
        ensures s[i] != '.'
      {
        if i >= |sign| { assert s[i] == g.whole[i - |sign|]; }
      }
      assert s + ".0" == sign + (g.whole + ("." + "0"));
    } else {
      assert s[|sign| + |g.whole|] == '.';
      assert s == sign + (g.whole + ("." + g.frac));
    }
  }

  lemma FractionReadsBack(f: Float, rest: string)
    requires f.Finite? && EndsNumber(rest) && (f.negative ==> !f.IsZero())
    ensures ParseFraction(f.negative, f.whole, FracText(f) + rest) == Done(Num(Real(f)), rest)
  {
    assert AllDigits("0");
    DigitRunStops(FracText(f), rest);
  }

  lemma BehindTheDot(whole: string, tail: string)
    ensures var s := whole + ("." + tail); s[|whole|] == '.' && s[|whole| + 1..] == tail
  {
  }

  lemma FractionFollows(negative: bool, s: string, k: nat)
    requires 0 < k == DigitRun(s) < |s| && s[k] == '.' && !LeadingZero(s[..k])
    ensures ParseUnsigned(negative, s) == ParseFraction(negative, s[..k], s[k + 1..])
  {
  }

  lemma DotSplits(negative: bool, whole: string, tail: string)
    requires AllDigits(whole) && whole != "" && !LeadingZero(whole)
    ensures ParseUnsigned(negative, whole + ("." + tail)) == ParseFraction(negative, whole, tail)
  {
    var s := whole + ("." + tail);
    assert DigitRun(s) == |whole| && s[..|whole|] == whole by { DigitRunStops(whole, "." + tail); }
    assert s[|whole|] == '.' && s[|whole| + 1..] == tail by { BehindTheDot(whole, tail); }
    FractionFollows(negative, s, |whole|);
  }

  lemma RegroupFloat(sign: string, whole: string, frac: string, rest: string)
    ensures sign + (whole + ("." + frac)) + rest == sign + (whole + ("." + (frac + rest)))
  {
  }

  lemma RealReadsBack(f: Float, rest: string)
    requires f.Finite? && EndsNumber(rest)
    ensures var s := FormatF64(f).value + rest;
      SignOrDigit(s) && ParseNumber(s) == Done(Num(Real(FoldZero(f))), rest)
  {
    var g := FoldZero(f);
    var sign, frac := if g.negative then "-" else "", FracText(g);
    var body := g.whole + ("." + (frac + rest));
    assert body != "" && IsDigit(body[0]) by { assert body[0] == g.whole[0]; }
    assert FormatF64(f).value + rest == sign + body by {
      FloatShowsDot(f);
      RegroupFloat(sign, g.whole, frac, rest);
    }
    assert SignOrDigit(sign + body) && ParseNumber(sign + body) == ParseUnsigned(g.negative, body) by {
      SignedNumber(g.negative, body);
    }
    assert ParseUnsigned(g.negative, body) == ParseFraction(g.negative, g.whole, frac + rest) by {
      DotSplits(g.negative, g.whole, frac + rest);
    }
    FractionReadsBack(g, rest);
  }

  lemma NumberReadsBack(n: Number, rest: string)
    requires WriteNumber(n).Ok? && EndsNumber(rest)
    ensures ParseValue(WriteNumber(n).value + rest) == Done(Num(NormalNumber(n)), rest)
  {
    match n {
      case Whole(i) => WholeReadsBack(i, rest);
      case Real(f) => RealReadsBack(f, rest);
    }
    NumberStarts(WriteNumber(n).value + rest);
  }

  // -------------------------------------------------------------------------
  // Documents read back
  // -------------------------------------------------------------------------

  lemma KeywordReadsBack(word: string, v: Value, rest: string)
    requires word != ""
    ensures Keyword(word + rest, word, v) == Done(v, rest)
  {
    assert (word + rest)[..|word|] == word && (word + rest)[|word|..] == rest;
  }

  lemma StringReadsBack(t: string, rest: string)
    ensures ParseValue(Quote(t) + rest) == Done(Str(t), rest)
  {
    var s := Quote(t) + rest;
    assert s[0] == '"' && s[1..] == EscapeAll(t) + "\"" + rest;
    TextReadsBack(t, rest);
  }

  /** A value that is not an array or an object reads back. */
  lemma ScalarReadsBack(nfc: string -> string, v: Value, rest: string)
    requires Canon(nfc, v).Ok? && EndsNumber(rest) && !v.Arr? && !v.Obj?
    ensures ParseValue(Canon(nfc, v).value + rest) == Done(Normal(nfc, v), rest)
  {
    var s := Canon(nfc, v).value + rest;
    match v
    case Null => KeywordReadsBack("null", Null, rest);
    case Bool(b) => KeywordReadsBack(if b then "true" else "false", v, rest);
    case Num(n) => NumberReadsBack(n, rest);
    case Str(t) => StringReadsBack(nfc(t), rest);
  }

  /** What may come first in a canonical value. */
  lemma ValueStart(nfc: string -> string, v: Value)
    requires Canon(nfc, v).Ok?
    ensures Canon(nfc, v).value != "" && Canon(nfc, v).value[0] != ']'
  {
    match v
    case Num(Whole(i)) => WholeReadsBack(i, "");
      assert WriteNumber(Whole(i)).value + "" == WriteNumber(Whole(i)).value;
    case Num(Real(f)) => RealReadsBack(f, "");
      assert FormatF64(f).value + "" == FormatF64(f).value;
    case _ =>
  }

  lemma ItemParses(s: string, first: bool, v: Value, after: string, items: seq<Value>, rest: string)
    requires if first then !StartsWith(s, ']') else StartsWith(s, ',')
    requires ParseValue(if first then s else s[1..]) == Done(v, after)
    requires ParseItems(after, false) == Done(items, rest)
    ensures ParseItems(s, first) == Done([v] + items, rest)
  {
  }

  lemma MemberParses(s: string, first: bool, key: string, v: Value, after: string,
                     fields: map<string, Value>, rest: string)
    requires if first then !StartsWith(s, '}') else StartsWith(s, ',')
    requires ParseMember(if first then s else s[1..]) == Done((key, v), after)
    requires ParseMembers(after, false) == Done(fields, rest) && forall k :: k in fields ==> Before(key, k)
    ensures ParseMembers(s, first) == Done(fields[key := v], rest)
  {
  }

  lemma OneMemberParses(key: string, text: string, v: Value, after: string)
    requires ParseValue(text + after) == Done(v, after)
    ensures ParseMember("\"" + (EscapeAll(key) + "\"" + (":" + (text + after)))) == Done((key, v), after)
  {
    var tail := ":" + (text + after);
    var s := "\"" + (EscapeAll(key) + "\"" + tail);
    assert s[1..] == EscapeAll(key) + "\"" + tail;
    TextReadsBack(key, tail);
    assert tail[1..] == text + after;
  }

  lemma ItemsText(nfc: string -> string, v: Value, i: nat, rest: string)
    requires v.Arr? && i < |v.items| && CanonItems(nfc, v, i).Ok?
    ensures Canon(nfc, v.items[i]).Ok? && CanonItems(nfc, v, i + 1).Ok?
    ensures CanonItems(nfc, v, i).value + rest
         == Comma(i) + (Canon(nfc, v.items[i]).value + (CanonItems(nfc, v, i + 1).value + rest))
  {
    var item, after := Canon(nfc, v.items[i]).value, CanonItems(nfc, v, i + 1).value;
    assert CanonItems(nfc, v, i).value == Comma(i) + item + after;
    assert (Comma(i) + item + after) + rest == Comma(i) + (item + (after + rest));
  }

  /** What follows an item or a member never continues a number. */
  lemma ItemsEnd(nfc: string -> string, v: Value, i: nat, rest: string)
    requires v.Arr? && 0 < i <= |v.items| && CanonItems(nfc, v, i).Ok?
    ensures EndsNumber(CanonItems(nfc, v, i).value + rest)
  {
    if i < |v.items| { ItemsText(nfc, v, i, rest); }
  }

  lemma {:induction false} ItemsReadBack(nfc: string -> string, v: Value, i: nat, rest: string)
    requires v.Arr? && i <= |v.items| && CanonItems(nfc, v, i).Ok? && EndsNumber(rest)
    ensures ParseItems(CanonItems(nfc, v, i).value + rest, i == 0) == Done(NormalItems(nfc, v, i), rest)
    decreases v, 0, |v.items| - i
  {
    var s := CanonItems(nfc, v, i).value + rest;
    if i == |v.items| {
      assert s[0] == ']' && s[1..] == rest;
    } else {
      var item, after := v.items[i], CanonItems(nfc, v, i + 1).value + rest;
      ItemsText(nfc, v, i, rest);
      ItemsEnd(nfc, v, i + 1, rest);
      ValueStart(nfc, item);
      ValueReadsBack(nfc, item, after);
      ItemsReadBack(nfc, v, i + 1, rest);
      var t := Canon(nfc, item).value + after;
      assert if i == 0 then s == t && !StartsWith(s, ']') else StartsWith(s, ',') && s[1..] == t;
      ItemParses(s, i == 0, Normal(nfc, item), after, NormalItems(nfc, v, i + 1), rest);
    }
  }

  /** The keys from position `i` on. */
  ghost function KeysFrom(keys: seq<string>, i: nat): (r: set<string>)
    requires i <= |keys|
    ensures r <= KeySet(keys)
    decreases |keys| - i
  {
    if i == |keys| then {}
    else
      assert keys[i] in KeySet(keys);
      {keys[i]} + KeysFrom(keys, i + 1)
  }

  lemma {:induction false} KeysFromHas(keys: seq<string>, i: nat, k: string)
    requires i <= |keys|
    ensures k in KeysFrom(keys, i) <==> exists j :: i <= j < |keys| && keys[j] == k
    decreases |keys| - i
  {
    if i < |keys| { KeysFromHas(keys, i + 1, k); }
  }

  lemma AllKeysFrom(keys: seq<string>)
    ensures KeysFrom(keys, 0) == KeySet(keys)
  {
    forall k
      ensures k in KeysFrom(keys, 0) <==> k in KeySet(keys)
    {
      KeysFromHas(keys, 0, k);
    }
  }

  lemma OneMoreMember(nfc: string -> string, v: Value, keys: seq<string>, i: nat)
    requires v.Obj? && KeySet(keys) <= NfcKeys(nfc, v.fields) && i < |keys| && Ascending(keys)
    ensures keys[i] in KeySet(keys) && forall k :: k in KeysFrom(keys, i + 1) ==> Before(keys[i], k)
    ensures NormalMembers(nfc, v, KeysFrom(keys, i))
         == NormalMembers(nfc, v, KeysFrom(keys, i + 1))[
              keys[i] := Normal(nfc, v.fields[Origin(nfc, v.fields, keys[i])])]
  {
    assert keys[i] in KeySet(keys);
    forall k | k in KeysFrom(keys, i + 1)
      ensures Before(keys[i], k)
    {
      KeysFromHas(keys, i + 1, k);
    }
    assert KeysFrom(keys, i) == KeysFrom(keys, i + 1) + {keys[i]};
  }

  lemma RegroupMember(comma: string, key: string, item: string, more: string, rest: string)
    ensures comma + ("\"" + key + "\"") + ":" + item + more + rest
         == comma + ("\"" + (key + "\"" + (":" + (item + (more + rest)))))
  {
    var tail := item + (more + rest);
    assert key + ("\"" + (":" + tail)) == key + "\"" + (":" + tail);
  }

  lemma MembersText(nfc: string -> string, v: Value, keys: seq<string>, i: nat, rest: string)
    requires v.Obj? && KeySet(keys) <= NfcKeys(nfc, v.fields) && i < |keys|
    requires CanonMembers(nfc, v, keys, i).Ok?
    ensures keys[i] in KeySet(keys)
    ensures var item := Canon(nfc, v.fields[Origin(nfc, v.fields, keys[i])]);
      && item.Ok? && CanonMembers(nfc, v, keys, i + 1).Ok?
      && CanonMembers(nfc, v, keys, i).value + rest
      == Comma(i) + ("\"" + (EscapeAll(keys[i]) + "\""
          + (":" + (item.value + (CanonMembers(nfc, v, keys, i + 1).value + rest)))))
  {
    assert keys[i] in KeySet(keys);
    var item := Canon(nfc, v.fields[Origin(nfc, v.fields, keys[i])]).value;
    RegroupMember(Comma(i), EscapeAll(keys[i]), item, CanonMembers(nfc, v, keys, i + 1).value, rest);
  }

  lemma BehindTheComma(s: string, i: nat, t: string)
    requires s == Comma(i) + t
    ensures if i == 0 then s == t else StartsWith(s, ',') && s[1..] == t
  {
  }

  lemma NextMemberParses(
    s: string, i: nat, key: string, text: string, v: Value, after: string, fields: map<string, Value>, rest: string)
    requires s == Comma(i) + ("\"" + (EscapeAll(key) + "\"" + (":" + (text + after))))
    requires ParseValue(text + after) == Done(v, after)
    requires ParseMembers(after, false) == Done(fields, rest) && forall k :: k in fields ==> Before(key, k)
    ensures ParseMembers(s, i == 0) == Done(fields[key := v], rest)
  {
    OneMemberParses(key, text, v, after);
    BehindTheComma(s, i, "\"" + (EscapeAll(key) + "\"" + (":" + (text + after))));
    MemberParses(s, i == 0, key, v, after, fields, rest);
  }

  lemma NoMemberParses(nfc: string -> string, v: Value, keys: seq<string>, rest: string)
    requires v.Obj? && KeySet(keys) <= NfcKeys(nfc, v.fields)
    ensures var s := CanonMembers(nfc, v, keys, |keys|).value + rest;
      ParseMembers(s, |keys| == 0) == Done(NormalMembers(nfc, v, KeysFrom(keys, |keys|)), rest)
  {
    var s := CanonMembers(nfc, v, keys, |keys|).value + rest;
    assert s[0] == '}' && s[1..] == rest;
  }

  /** One member, read back in front of others that are. */
  lemma MemberReadsBack(nfc: string -> string, v: Value, keys: seq<string>, i: nat, item: Value, rest: string)
    requires v.Obj? && KeySet(keys) <= NfcKeys(nfc, v.fields) && i < |keys| && Ascending(keys)
    requires CanonMembers(nfc, v, keys, i).Ok? && CanonMembers(nfc, v, keys, i + 1).Ok?
    requires keys[i] in KeySet(keys) && item == v.fields[Origin(nfc, v.fields, keys[i])] && Canon(nfc, item).Ok?
    requires var after := CanonMembers(nfc, v, keys, i + 1).value + rest;
      && ParseValue(Canon(nfc, item).value + after) == Done(Normal(nfc, item), after)
      && ParseMembers(after, false) == Done(NormalMembers(nfc, v, KeysFrom(keys, i + 1)), rest)
    ensures var s := CanonMembers(nfc, v, keys, i).value + rest;
      ParseMembers(s, i == 0) == Done(NormalMembers(nfc, v, KeysFrom(keys, i)), rest)
  {
    OneMoreMember(nfc, v, keys, i);
    MembersText(nfc, v, keys, i, rest);
    NextMemberParses(CanonMembers(nfc, v, keys, i).value + rest, i, keys[i], Canon(nfc, item).value, Normal(nfc, item),
        CanonMembers(nfc, v, keys, i + 1).value + rest, NormalMembers(nfc, v, KeysFrom(keys, i + 1)), rest);
  }

  lemma {:induction false} MembersReadBack(
    nfc: string -> string, v: Value, keys: seq<string>, i: nat, rest: string)
    requires v.Obj? && KeySet(keys) <= NfcKeys(nfc, v.fields) && i <= |keys| && Ascending(keys)
    requires CanonMembers(nfc, v, keys, i).Ok? && EndsNumber(rest)
    ensures ParseMembers(CanonMembers(nfc, v, keys, i).value + rest, i == 0)
         == Done(NormalMembers(nfc, v, KeysFrom(keys, i)), rest)
    decreases v, 0, |keys| - i
  {
    if i == |keys| {
      NoMemberParses(nfc, v, keys, rest);
    } else {
      assert keys[i] in KeySet(keys);
      var item, after := v.fields[Origin(nfc, v.fields, keys[i])], CanonMembers(nfc, v, keys, i + 1).value + rest;
      assert EndsNumber(after) by { MembersEnd(nfc, v, keys, i + 1, rest); }
      ValueReadsBack(nfc, item, after);
      MembersReadBack(nfc, v, keys, i + 1, rest);
      MemberReadsBack(nfc, v, keys, i, item, rest);
    }
  }

  lemma MembersEnd(nfc: string -> string, v: Value, keys: seq<string>, i: nat, rest: string)
    requires v.Obj? && KeySet(keys) <= NfcKeys(nfc, v.fields) && 0 < i <= |keys|
    requires CanonMembers(nfc, v, keys, i).Ok?
    ensures EndsNumber(CanonMembers(nfc, v, keys, i).value + rest)
  {
    if i < |keys| { MembersText(nfc, v, keys, i, rest); }
  }

  lemma HeadAndTail(c: char, t: string, rest: string)
    ensures StartsWith([c] + t + rest, c) && ([c] + t + rest)[1..] == t + rest
  {
  }

  lemma ArrayParses(s: string, items: seq<Value>, rest: string)
    requires StartsWith(s, '[') && ParseItems(s[1..], true) == Done(items, rest)
    ensures ParseValue(s) == Done(Arr(items), rest)
  {
  }

  lemma ObjectParses(s: string, fields: map<string, Value>, rest: string)
    requires StartsWith(s, '{') && ParseMembers(s[1..], true) == Done(fields, rest)
    ensures ParseValue(s) == Done(Obj(fields), rest)
  {
  }

  lemma {:induction false} ValueReadsBack(nfc: string -> string, v: Value, rest: string)
    requires Canon(nfc, v).Ok? && EndsNumber(rest)
    ensures ParseValue(Canon(nfc, v).value + rest) == Done(Normal(nfc, v), rest)
    decreases v, 1, 0
  {
    match v
    case Arr(_) =>
      var t := CanonItems(nfc, v, 0).value;
      HeadAndTail('[', t, rest);
      ItemsReadBack(nfc, v, 0, rest);
      ArrayParses("[" + t + rest, NormalItems(nfc, v, 0), rest);
    case Obj(fields) =>
      var keys := SortedKeys(NfcKeys(nfc, fields));
      var t := CanonMembers(nfc, v, keys, 0).value;
      HeadAndTail('{', t, rest);
      MembersReadBack(nfc, v, keys, 0, rest);
      AllKeysFrom(keys);
      ObjectParses("{" + t + rest, NormalMembers(nfc, v, KeySet(keys)), rest);
    case _ => ScalarReadsBack(nfc, v, rest);
  }

  // -------------------------------------------------------------------------
  // The theorems
  // -------------------------------------------------------------------------

  /** The parser recovers from a canonical string exactly the normal form of the document. */
  lemma CanonicalRoundTrip(nfc: string -> string, v: Value)
    requires Canon(nfc, v).Ok?
    ensures Parse(Canon(nfc, v).value) == Some(Normal(nfc, v))
  {
    assert Canon(nfc, v).value + "" == Canon(nfc, v).value;
    ValueReadsBack(nfc, v, "");
  }

  lemma {:induction false} SameNormalSameText(nfc: string -> string, v: Value, w: Value)
    requires Canon(nfc, v).Ok? && Canon(nfc, w).Ok? && Normal(nfc, v) == Normal(nfc, w)
    ensures Canon(nfc, v) == Canon(nfc, w)
    decreases v, 1, 0
  {
    match v
    case Num(n) =>
    case Arr(_) =>
      SameNormalSameItems(nfc, v, w, 0);
    case Obj(fields) =>
      assert NfcKeys(nfc, fields) == Normal(nfc, v).fields.Keys == Normal(nfc, w).fields.Keys == NfcKeys(nfc, w.fields);
      SameNormalSameMembers(nfc, v, w, SortedKeys(NfcKeys(nfc, fields)), 0);
    case _ =>
  }

  lemma {:induction false} SameNormalSameItems(nfc: string -> string, v: Value, w: Value, i: nat)
    requires v.Arr? && w.Arr? && i <= |v.items| && i <= |w.items|
    requires CanonItems(nfc, v, i).Ok? && CanonItems(nfc, w, i).Ok?
    requires NormalItems(nfc, v, i) == NormalItems(nfc, w, i)
    ensures CanonItems(nfc, v, i) == CanonItems(nfc, w, i)
    decreases v, 0, |v.items| - i
  {
    if i < |v.items| {
      assert NormalItems(nfc, v, i)[0] == NormalItems(nfc, w, i)[0];
      assert NormalItems(nfc, v, i)[1..] == NormalItems(nfc, v, i + 1);
      assert NormalItems(nfc, w, i)[1..] == NormalItems(nfc, w, i + 1);
      SameNormalSameText(nfc, v.items[i], w.items[i]);
      SameNormalSameItems(nfc, v, w, i + 1);
    }
  }

  lemma {:induction false} SameNormalSameMembers(
    nfc: string -> string, v: Value, w: Value, keys: seq<string>, i: nat)
    requires v.Obj? && w.Obj? && i <= |keys| && Normal(nfc, v) == Normal(nfc, w)
    requires KeySet(keys) <= NfcKeys(nfc, v.fields) && KeySet(keys) <= NfcKeys(nfc, w.fields)
    requires CanonMembers(nfc, v, keys, i).Ok? && CanonMembers(nfc, w, keys, i).Ok?
    ensures CanonMembers(nfc, v, keys, i) == CanonMembers(nfc, w, keys, i)
    decreases v, 0, |keys| - i
  {
    if i < |keys| {
      assert keys[i] in KeySet(keys);
      var a, b := v.fields[Origin(nfc, v.fields, keys[i])], w.fields[Origin(nfc, w.fields, keys[i])];
      assert Normal(nfc, a) == Normal(nfc, v).fields[keys[i]] == Normal(nfc, w).fields[keys[i]] == Normal(nfc, b);
      SameNormalSameText(nfc, a, b);
      SameNormalSameMembers(nfc, v, w, keys, i + 1);
    }
  }

  /** Two documents have the same canonical string if and only if they have the same normal form. */
  lemma SameTextIffSameNormal(nfc: string -> string, v: Value, w: Value)
    requires Canon(nfc, v).Ok? && Canon(nfc, w).Ok?
    ensures Canon(nfc, v) == Canon(nfc, w) <==> Normal(nfc, v) == Normal(nfc, w)
  {
    CanonicalRoundTrip(nfc, v);
    CanonicalRoundTrip(nfc, w);
    if Normal(nfc, v) == Normal(nfc, w) {
      SameNormalSameText(nfc, v, w);
    }
  }

  // -------------------------------------------------------------------------
  // The normal form is a normal form
  // -------------------------------------------------------------------------

  ghost predicate Idempotent(nfc: string -> string) {
    forall s :: nfc(nfc(s)) == nfc(s)
  }

  lemma {:induction false} NormalIsNormal(nfc: string -> string, v: Value)
    requires Idempotent(nfc)
    ensures Normal(nfc, Normal(nfc, v)) == Normal(nfc, v)
    decreases v, 1, 0
  {
    match v
    case Arr(_) => NormalItemsAreNormal(nfc, v, 0);
    case Obj(fields) =>
      var n := Normal(nfc, v);
      assert NfcKeys(nfc, n.fields) == n.fields.Keys by {
        forall k | k in n.fields
          ensures nfc(k) == k
        {
          assert k in NfcKeys(nfc, fields);
        }
      }
      assert Normal(nfc, n).fields.Keys == n.fields.Keys;
      forall k | k in n.fields
        ensures Normal(nfc, n).fields[k] == n.fields[k]
      {
        assert nfc(k) == k && Origin(nfc, n.fields, k) == k;
        NormalIsNormal(nfc, fields[Origin(nfc, fields, k)]);
      }
      assert Normal(nfc, n).fields == n.fields;
    case _ =>
  }

  lemma {:induction false} NormalItemsAreNormal(nfc: string -> string, v: Value, i: nat)
    requires Idempotent(nfc) && v.Arr? && i <= |v.items|
    ensures NormalItems(nfc, Normal(nfc, v), i) == NormalItems(nfc, v, i)
    decreases v, 0, |v.items| - i
  {
    if i < |v.items| {
      NormalIsNormal(nfc, v.items[i]);
      NormalItemsAreNormal(nfc, v, i + 1);
      NormalItemAt(nfc, v, 0, i);
    }
  }
}
