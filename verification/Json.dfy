/** JSON documents as both implementations hold them: objects are maps, numbers know whether they are whole. */
module Json {
  import opened Decimal

  /**
   A 64-bit float, named by the shortest decimal that reads back as it: an optional sign, the digits
   before the dot, and the digits after it (none when the value is a whole number).
  */
  datatype FloatText = Finite(negative: bool, whole: string, frac: string) | NotFinite
  {
    predicate Valid() {
      Finite? ==>
        && AllDigits(whole) && whole != [] && !LeadingZero(whole)
        && AllDigits(frac) && (frac != [] ==> frac[|frac| - 1] != '0')
    }

    predicate IsZero() {
      Finite? && whole == "0" && frac == ""
    }
  }

  type Float = f: FloatText | f.Valid() witness NotFinite

  datatype Number = Whole(i: int) | Real(f: Float)

  datatype Value =
    | Null
    | Bool(b: bool)
    | Num(n: Number)
    | Str(s: string)
    | Arr(items: seq<Value>)
    | Obj(fields: map<string, Value>)

  /** `w` occurs somewhere in `v`. */
  ghost predicate Inside(w: Value, v: Value) {
    w == v || match v
      case Arr(items) => exists i :: 0 <= i < |items| && Inside(w, items[i])
      case Obj(fields) => exists k :: k in fields && Inside(w, fields[k])
      case _ => false
  }
}
