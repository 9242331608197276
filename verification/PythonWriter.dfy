/**
 The Python canonical writer.

 It appends pieces to a list and joins them at the end. A key is normalized when
 the dictionary is filled and again when it is quoted; as normalizing twice is
 normalizing once, the joined text is the one the Rust writer produces.
*/
module PythonWriter {
  import opened Wrappers
  import opened Decimal
  import opened Json
  import opened TextOrder
  import opened Canonical
  import opened CanonicalParser
  import opened CanonicalWriter

  /** `"".join(pieces)`. */
  function Join(pieces: seq<string>): string {
    if pieces == [] then "" else Join(pieces[..|pieces| - 1]) + pieces[|pieces| - 1]
  }

  lemma JoinOneMore(pieces: seq<string>, piece: string)
    ensures Join(pieces + [piece]) == Join(pieces) + piece
  {
    assert (pieces + [piece])[..|pieces|] == pieces;
  }

  // -------------------------------------------------------------------------
  // Strings and numbers
  // -------------------------------------------------------------------------

  /** Four hexadecimal digits. */
  function Hex4(code: nat): string
    requires code < 0x1_0000
  {
    [HexDigit(code / 0x1000), HexDigit(code / 0x100 % 16), HexDigit(code / 16 % 16), HexDigit(code % 16)]
  }

  const SHORT: map<nat, string> := map[0x08 := "\\b", 0x09 := "\\t", 0x0A := "\\n", 0x0C := "\\f", 0x0D := "\\r"]

  function PyEscape(c: char): string {
    var code := c as int;
    if c == '"' then "\\\""
    else if c == '\\' then "\\\\"
    else if code < 0x20 then (if code in SHORT then SHORT[code] else "\\u" + Hex4(code))
    else [c]
  }

  /** Character by character, both writers escape alike. */
  lemma EscapesAgree(c: char)
    ensures PyEscape(c) == Escape(c)
  {
    var code := c as int;
    if code < 0x20 {
      assert code / 0x1000 == 0 && code / 0x100 % 16 == 0 && code / 16 % 16 == code / 16;
      assert HexDigit(0) == '0';
      assert "\\u" + Hex4(code) == "\\u00" + [HexDigit(code / 16), HexDigit(code % 16)];
    }
  }

  /** `_number` and `str` of an integer. */
  function PyNumber(n: Number): Text {
    match n
    case Whole(i) => Ok(if i < 0 then "-" + Numeral(-i) else Numeral(i))
    case Real(NotFinite) => Err(NonFinite)
    case Real(f) =>
      if f.IsZero() then Ok("0.0")
      else
        var text := Display(f);
        Ok(if '.' in text then text else text + ".0")
  }

  lemma NumbersAgree(n: Number)
    ensures PyNumber(n) == WriteNumber(n)
  {
    if n.Real? && n.f.IsZero() {
      assert Display(FoldZero(n.f)) == "0" && "0" + ".0" == "0.0";
    }
  }

  // -------------------------------------------------------------------------
  // The writer
  // -------------------------------------------------------------------------

  ghost predicate Reports(error: Option<CanonError>, text: Text) {
    error == match text case Ok(_) => None case Err(e) => Some(e)
  }

  /** The list of pieces. */
  class Pieces {
    var out: seq<string>

    constructor ()
      ensures out == []
    {
      out := [];
    }

    method Append(piece: string)
      modifies this
      ensures Join(out) == Join(old(out)) + piece
    {
      JoinOneMore(out, piece);
      out := out + [piece];
    }

    /** What separates an entry from the one before. */
    method WriteComma(i: nat)
      modifies this
      ensures Join(out) == Join(old(out)) + Comma(i)
    {
      if i > 0 { Append(","); }
      assert Join(old(out)) + "" == Join(old(out));
    }

    /** `_string`: normalizes, escapes and quotes. */
    method WriteString(nfc: string -> string, value: string)
      modifies this
      ensures Join(out) == Join(old(out)) + Quote(nfc(value))
    {
      var quoted := Quoted(nfc(value));
      Append(quoted);
    }

    /** Appends a document. It raises exactly when the document is not writable, and else appends its canonical text. */
    method WriteValue(nfc: string -> string, v: Value) returns (error: Option<CanonError>)
      requires Idempotent(nfc)
      modifies this
      ensures Reports(error, Canon(nfc, v))
      ensures error.None? ==> Join(out) == Join(old(out)) + Canon(nfc, v).value
      decreases v, 1
    {
      error := None;
      match v {
        case Null => Append("null");
        case Bool(b) => Append(if b then "true" else "false");
        case Num(n) =>
          NumbersAgree(n);
          var number := PyNumber(n);
          if number.Err? { return Some(number.error); }
          Append(number.value);
        case Str(s) => WriteString(nfc, s);
        case Arr(_) => error := WriteItems(nfc, v);
        case Obj(_) => error := WriteMembers(nfc, v);
      }
    }

    method WriteItems(nfc: string -> string, v: Value) returns (error: Option<CanonError>)
      requires Idempotent(nfc) && v.Arr?
      modifies this
      ensures Reports(error, Canon(nfc, v))
      ensures error.None? ==> Join(out) == Join(old(out)) + Canon(nfc, v).value
      decreases v, 0
    {
      ghost var all := Canon(nfc, v);
      Append("[");
      SameEndStart(Join(old(out)), "[", CanonItems(nfc, v, 0));
      for i := 0 to |v.items|
        invariant SameEnd(Join(old(out)), all, Join(out), CanonItems(nfc, v, i))
      {
        SameEndStep(Join(old(out)), all, Join(out), Comma(i), Canon(nfc, v.items[i]), CanonItems(nfc, v, i + 1));
        WriteComma(i);
        error := WriteValue(nfc, v.items[i]);
        if error.Some? { return; }
      }
      Append("]");
      return None;
    }

    /** One member; its key, which is in normal form, is normalized once more. */
    method WriteMember(nfc: string -> string, i: nat, key: string, v: Value) returns (error: Option<CanonError>)
      requires Idempotent(nfc) && nfc(key) == key
      modifies this
      ensures Reports(error, Canon(nfc, v))
      ensures error.None? ==> Join(out) == Join(old(out)) + (Comma(i) + Quote(key) + ":") + Canon(nfc, v).value
      decreases v, 2
    {
      WriteComma(i);
      WriteString(nfc, key);
      Append(":");
      assert Join(out) == Join(old(out)) + (Comma(i) + Quote(key) + ":") by {
        ThreePieces(Join(old(out)), Comma(i), Quote(key), ":");
      }
      error := WriteValue(nfc, v);
    }

    method WriteMembers(nfc: string -> string, v: Value) returns (error: Option<CanonError>)
      requires Idempotent(nfc) && v.Obj?
      modifies this
      ensures Reports(error, Canon(nfc, v))
      ensures error.None? ==> Join(out) == Join(old(out)) + Canon(nfc, v).value
      decreases v, 0
    {
      Append("{");
      var sorted := SortedItems(nfc, v.fields);
      if sorted.None? { return Some(DuplicateKey); }
      var pairs := sorted.value;
      ghost var keys, all := SortedKeys(NfcKeys(nfc, v.fields)), Canon(nfc, v);
      SameEndStart(Join(old(out)), "{", CanonMembers(nfc, v, keys, 0));
      for i := 0 to |pairs|
        invariant SameEnd(Join(old(out)), all, Join(out), CanonMembers(nfc, v, keys, i))
      {
        MemberStep(nfc, v, pairs, i);
        KeyIsNormal(nfc, v, pairs, i);
        SameEndStep(Join(old(out)), all, Join(out), Comma(i) + Quote(keys[i]) + ":", Canon(nfc, pairs[i].1),
                    CanonMembers(nfc, v, keys, i + 1));
        error := WriteMember(nfc, i, pairs[i].0, pairs[i].1);
        if error.Some? { return; }
      }
      Append("}");
      return None;
    }
  }

  lemma ThreePieces(start: string, a: string, b: string, c: string)
    ensures start + a + b + c == start + (a + b + c)
  {
  }

  /** The quoted string, piece by piece. */
  method Quoted(text: string) returns (r: string)
    ensures r == Quote(text)
  {
    var pieces := "\"";
    for i := 0 to |text|
      invariant pieces + EscapeAll(text[i..]) == "\"" + EscapeAll(text)
    {
      EscapesAgree(text[i]);
      EscapeStep(pieces, text, i);
      pieces := pieces + PyEscape(text[i]);
    }
    assert text[|text|..] == "" && pieces + "" == pieces;
    r := pieces + "\"";
  }

  lemma KeyIsNormal(nfc: string -> string, v: Value, pairs: seq<Pair>, i: nat)
    requires Idempotent(nfc) && v.Obj? && InOrder(nfc, v.fields, pairs) && i < |pairs|
    ensures nfc(pairs[i].0) == pairs[i].0
  {
    var o := Origin(nfc, v.fields, pairs[i].0);
    assert nfc(nfc(o)) == nfc(o);
  }

  /** `canonicalize`: the text is the canonical text, and it raises where the Rust writer fails. */
  method Canonicalize(nfc: string -> string, v: Value) returns (r: Text)
    requires Idempotent(nfc)
    ensures r == Canon(nfc, v)
  {
    var pieces := new Pieces();
    var error := pieces.WriteValue(nfc, v);
    if error.Some? { return Err(error.value); }
    var text := Joined(pieces.out);
    assert "" + Canon(nfc, v).value == Canon(nfc, v).value;
    return Ok(text);
  }

  method Joined(pieces: seq<string>) returns (text: string)
    ensures text == Join(pieces)
  {
    text := "";
    for i := 0 to |pieces|
      invariant text == Join(pieces[..i])
    {
      assert pieces[..i + 1] == pieces[..i] + [pieces[i]];
      JoinOneMore(pieces[..i], pieces[i]);
      text := text + pieces[i];
    }
    assert pieces[..|pieces|] == pieces;
  }
}
