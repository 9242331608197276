/**
 Canonical JSON: the byte string of a document that gets hashed.

 `Canon` is the string the writer produces, `Normal` the document it stands for:
 strings and keys NFC-normalized, negative zero folded, whole numbers and floats
 kept apart. NFC itself is a parameter.
*/
module Canonical {
  import opened Wrappers
  import opened Decimal
  import opened TextOrder
  import opened Json

  datatype CanonError = NonFinite | DuplicateKey

  type Text = Result<string, CanonError>

  // -------------------------------------------------------------------------
  // Numbers and strings
  // -------------------------------------------------------------------------

  /** How a finite float displays: no exponent, and no dot when it is a whole number. */
  function Display(f: Float): string
    requires f.Finite?
  {
    (if f.negative then "-" else "") + f.whole + (if f.frac == "" then "" else "." + f.frac)
  }

  function FoldZero(f: Float): Float {
    if f.IsZero() then Finite(false, "0", "") else f
  }

  function FormatF64(f: Float): Text {
    if f.NotFinite? then Err(NonFinite)
    else
      var s := Display(FoldZero(f));
      Ok(if '.' in s then s else s + ".0")
  }

  function WriteNumber(n: Number): Text {
    match n
    case Whole(i) => Ok(if i >= 0 then Numeral(i) else "-" + Numeral(-i))
    case Real(f) => FormatF64(f)
  }

  function HexDigit(d: nat): char
    requires d < 16
  {
    "0123456789abcdef"[d]
  }

  function Escape(c: char): string {
    if c == '"' then "\\\""
    else if c == '\\' then "\\\\"
    else if c as int == 0x08 then "\\b"
    else if c as int == 0x0C then "\\f"
    else if c == '\n' then "\\n"
    else if c == '\r' then "\\r"
    else if c == '\t' then "\\t"
    else if c as int < 0x20 then "\\u00" + [HexDigit(c as int / 16), HexDigit(c as int % 16)]
    else [c]
  }

  function EscapeAll(s: string): string {
    if s == [] then "" else Escape(s[0]) + EscapeAll(s[1..])
  }

  function Quote(s: string): string {
    "\"" + EscapeAll(s) + "\""
  }

  // -------------------------------------------------------------------------
  // The canonical string and the normal form
  // -------------------------------------------------------------------------

  ghost function NfcKeys(nfc: string -> string, fields: map<string, Value>): set<string> {
    set k | k in fields :: nfc(k)
  }

  /** Two different keys of an object have the same normalization. */
  ghost predicate Collides(nfc: string -> string, fields: map<string, Value>) {
    exists a, b :: a in fields && b in fields && a != b && nfc(a) == nfc(b)
  }

  /** A key, as written, that normalizes to `k`. */
  ghost function Origin(nfc: string -> string, fields: map<string, Value>, k: string): (o: string)
    requires k in NfcKeys(nfc, fields)
    ensures o in fields && nfc(o) == k
  {
    var o :| o in fields && nfc(o) == k;
    o
  }

  function Then(first: Text, second: Text): Text {
    if first.Err? then first else if second.Err? then second else Ok(first.value + second.value)
  }

  function Comma(i: nat): string {
    if i > 0 then "," else ""
  }

  /** The string `write_value` appends for a document, or the error it stops with. */
  ghost function Canon(nfc: string -> string, v: Value): Text
    decreases v
  {
    match v
    case Null => Ok("null")
    case Bool(b) => Ok(if b then "true" else "false")
    case Num(n) => WriteNumber(n)
    case Str(s) => Ok(Quote(nfc(s)))
    case Arr(_) => Then(Ok("["), CanonItems(nfc, v, 0))
    case Obj(fields) =>
      if Collides(nfc, fields) then Err(DuplicateKey)
      else Then(Ok("{"), CanonMembers(nfc, v, SortedKeys(NfcKeys(nfc, fields)), 0))
  }

  /** The items from position `i` on, and the closing bracket. */
  ghost function CanonItems(nfc: string -> string, v: Value, i: nat): Text
    requires v.Arr? && i <= |v.items|
    decreases v, |v.items| - i
  {
    if i == |v.items| then Ok("]")
    else Then(Then(Ok(Comma(i)), Canon(nfc, v.items[i])), CanonItems(nfc, v, i + 1))
  }

  /** The members from position `i` on, in key order, and the closing brace. */
  ghost function CanonMembers(nfc: string -> string, v: Value, keys: seq<string>, i: nat): Text
    requires v.Obj? && KeySet(keys) <= NfcKeys(nfc, v.fields) && i <= |keys|
    decreases v, |keys| - i
  {
    if i == |keys| then Ok("}")
    else
      assert keys[i] in KeySet(keys);
      var member := Then(Ok(Comma(i) + Quote(keys[i]) + ":"), Canon(nfc, v.fields[Origin(nfc, v.fields, keys[i])]));
      Then(member, CanonMembers(nfc, v, keys, i + 1))
  }

  function NormalNumber(n: Number): Number {
    match n
    case Whole(_) => n
    case Real(f) => Real(FoldZero(f))
  }

  /** What a document means for its hash: key order is gone, everything else is kept. */
  ghost function Normal(nfc: string -> string, v: Value): Value
    decreases v, 1, 0
  {
    match v
    case Num(n) => Num(NormalNumber(n))
    case Str(s) => Str(nfc(s))
    case Arr(_) => Arr(NormalItems(nfc, v, 0))
    case Obj(fields) => Obj(NormalMembers(nfc, v, NfcKeys(nfc, fields)))
    case _ => v
  }

  /** The normal forms of the items from position `i` on. */
  ghost function NormalItems(nfc: string -> string, v: Value, i: nat): (r: seq<Value>)
    requires v.Arr? && i <= |v.items|
    ensures |r| == |v.items| - i
    decreases v, 0, |v.items| - i
  {
    if i == |v.items| then [] else [Normal(nfc, v.items[i])] + NormalItems(nfc, v, i + 1)
  }

  /** The normal forms of the members whose normalized keys are in `keys`. */
  ghost function NormalMembers(nfc: string -> string, v: Value, keys: set<string>): map<string, Value>
    requires v.Obj? && keys <= NfcKeys(nfc, v.fields)
    decreases v, 0, 0
  {
    map k | k in keys :: Normal(nfc, v.fields[Origin(nfc, v.fields, k)])
  }

  lemma {:induction false} NormalItemAt(nfc: string -> string, v: Value, i: nat, j: nat)
    requires v.Arr? && i <= j < |v.items|
    ensures NormalItems(nfc, v, i)[j - i] == Normal(nfc, v.items[j])
    decreases j - i
  {
    if i < j { NormalItemAt(nfc, v, i + 1, j); }
  }

  // -------------------------------------------------------------------------
  // It fails exactly on non-finite numbers and colliding keys
  // -------------------------------------------------------------------------

  ghost predicate Unwritable(nfc: string -> string, w: Value) {
    w == Num(Real(NotFinite)) || (w.Obj? && Collides(nfc, w.fields))
  }

  /** What each error is about. */
  ghost predicate Stops(nfc: string -> string, w: Value, error: CanonError) {
    match error
    case NonFinite => w == Num(Real(NotFinite))
    case DuplicateKey => w.Obj? && Collides(nfc, w.fields)
  }

  lemma {:induction false} UnwritableFails(nfc: string -> string, v: Value, w: Value)
    requires Inside(w, v) && Unwritable(nfc, w)
    ensures Canon(nfc, v).Err?
    decreases v
  {
    if w != v {
      match v
      case Arr(items) =>
        var i :| 0 <= i < |items| && Inside(w, items[i]);
        UnwritableFails(nfc, items[i], w);
        ItemFailsAll(nfc, v, 0, i);
      case Obj(fields) =>
        if !Collides(nfc, fields) {
          var k :| k in fields && Inside(w, fields[k]);
          UnwritableFails(nfc, fields[k], w);
          var keys := SortedKeys(NfcKeys(nfc, fields));
          assert nfc(k) in KeySet(keys);
          var i :| 0 <= i < |keys| && keys[i] == nfc(k);
          assert Origin(nfc, fields, keys[i]) == k;
          MemberFailsAll(nfc, v, keys, 0, i);
        }
    }
  }

  lemma {:induction false} ItemFailsAll(nfc: string -> string, v: Value, i: nat, j: nat)
    requires v.Arr? && i <= j < |v.items| && Canon(nfc, v.items[j]).Err?
    ensures CanonItems(nfc, v, i).Err?
    decreases j - i
  {
    if i < j { ItemFailsAll(nfc, v, i + 1, j); }
  }

  lemma {:induction false} MemberFailsAll(nfc: string -> string, v: Value, keys: seq<string>, i: nat, j: nat)
    requires v.Obj? && KeySet(keys) <= NfcKeys(nfc, v.fields) && i <= j < |keys|
    requires keys[j] in KeySet(keys) && Canon(nfc, v.fields[Origin(nfc, v.fields, keys[j])]).Err?
    ensures CanonMembers(nfc, v, keys, i).Err?
    decreases j - i
  {
    if i < j { MemberFailsAll(nfc, v, keys, i + 1, j); }
  }

  lemma {:induction false} FailureHasCause(nfc: string -> string, v: Value)
    requires Canon(nfc, v).Err?
    ensures exists w :: Inside(w, v) && Stops(nfc, w, Canon(nfc, v).error)
    decreases v
  {
    match v
    case Num(_) => assert Inside(v, v);
    case Arr(items) =>
      var i := FailingItem(nfc, v, 0);
      FailureHasCause(nfc, items[i]);
      var w :| Inside(w, items[i]) && Stops(nfc, w, Canon(nfc, items[i]).error);
      assert Inside(w, v);
    case Obj(fields) =>
      if Collides(nfc, fields) {
        assert Inside(v, v);
      } else {
        var k := FailingMember(nfc, v, SortedKeys(NfcKeys(nfc, fields)), 0);
        FailureHasCause(nfc, fields[k]);
        var w :| Inside(w, fields[k]) && Stops(nfc, w, Canon(nfc, fields[k]).error);
        assert Inside(w, v);
      }
  }

  lemma {:induction false} FailingItem(nfc: string -> string, v: Value, i: nat) returns (j: nat)
    requires v.Arr? && i <= |v.items| && CanonItems(nfc, v, i).Err?
    ensures j < |v.items| && Canon(nfc, v.items[j]) == CanonItems(nfc, v, i)
    decreases |v.items| - i
  {
    if Canon(nfc, v.items[i]).Err? { return i; }
    j := FailingItem(nfc, v, i + 1);
  }

  lemma {:induction false} FailingMember(nfc: string -> string, v: Value, keys: seq<string>, i: nat)
    returns (k: string)
    requires v.Obj? && KeySet(keys) <= NfcKeys(nfc, v.fields) && i <= |keys|
    requires CanonMembers(nfc, v, keys, i).Err?
    ensures k in v.fields && Canon(nfc, v.fields[k]) == CanonMembers(nfc, v, keys, i)
    decreases |keys| - i
  {
    assert keys[i] in KeySet(keys);
    k := Origin(nfc, v.fields, keys[i]);
    if Canon(nfc, v.fields[k]).Ok? {
      k := FailingMember(nfc, v, keys, i + 1);
    }
  }

  /**
   Canonicalization fails if and only if a non-finite number, or an object whose keys collide, occurs
   inside; and there is one of the kind that is reported.
  */
  lemma FailsExactlyWhenUnwritable(nfc: string -> string, v: Value)
    ensures Canon(nfc, v).Err? <==> exists w :: Inside(w, v) && Unwritable(nfc, w)
    ensures Canon(nfc, v).Err? ==> exists w :: Inside(w, v) && Stops(nfc, w, Canon(nfc, v).error)
  {
    if Canon(nfc, v).Err? {
      FailureHasCause(nfc, v);
    }
    forall w | Inside(w, v) && Unwritable(nfc, w)
      ensures Canon(nfc, v).Err?
    {
      UnwritableFails(nfc, v, w);
    }
  }
}
