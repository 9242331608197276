/**
 The order of object keys.

 The Rust writer sorts keys by the bytes of their UTF-8 encoding, the Python
 writer by code point. Both orders are defined here and proved to be the same,
 so that "the sorted keys of a set" names one sequence.
*/
module TextOrder {

  /** Code point order, as Python compares `str`. */
  predicate Before(a: string, b: string) {
    b != [] && (a == [] || a[0] < b[0] || (a[0] == b[0] && Before(a[1..], b[1..])))
  }

  lemma {:induction false} BeforeTotal(a: string, b: string)
    ensures !Before(a, a)
    ensures a == b || Before(a, b) || Before(b, a)
    ensures !(Before(a, b) && Before(b, a))
    decreases |a|
  {
    if a != [] && b != [] {
      BeforeTotal(a[1..], b[1..]);
      assert a == [a[0]] + a[1..] && b == [b[0]] + b[1..];
    } else if a != [] {
      BeforeTotal(a[1..], b);
    }
  }

  lemma {:induction false} BeforeTransitive(a: string, b: string, c: string)
    requires Before(a, b) && Before(b, c)
    ensures Before(a, c)
    decreases |a|
  {
    if a != [] && a[0] == b[0] && b[0] == c[0] {
      BeforeTransitive(a[1..], b[1..], c[1..]);
    }
  }

  predicate Ascending(keys: seq<string>) {
    forall i, j :: 0 <= i < j < |keys| ==> Before(keys[i], keys[j])
  }

  ghost function KeySet(keys: seq<string>): set<string> {
    set k | k in keys
  }

  ghost predicate IsLeast(s: set<string>, least: string) {
    least in s && forall x :: x in s && x != least ==> Before(least, x)
  }

  lemma {:induction false} LeastKey(s: set<string>) returns (least: string)
    requires s != {}
    ensures IsLeast(s, least)
    decreases |s|
  {
    var x :| x in s;
    if s == {x} {
      least := x;
    } else {
      var rest := s - {x};
      var y := LeastKey(rest);
      BeforeTotal(x, y);
      least := if Before(x, y) then x else y;
      forall z | z in s && z != least
        ensures Before(least, z)
      {
        if z != x && least == x && z != y { BeforeTransitive(x, y, z); }
      }
    }
  }

  /** A set of keys in ascending order. */
  ghost function SortedKeys(s: set<string>): (keys: seq<string>)
    ensures Ascending(keys) && KeySet(keys) == s
    decreases |s|
  {
    if s == {} then [] else
      assert exists m :: IsLeast(s, m) by { var m := LeastKey(s); }
      var least :| IsLeast(s, least);
      var rest := SortedKeys(s - {least});
      assert forall x :: x in KeySet(rest) <==> x in s && x != least;
      [least] + rest
  }

  /** Only one ascending sequence enumerates a set. */
  lemma {:induction false} AscendingUnique(a: seq<string>, b: seq<string>)
    requires Ascending(a) && Ascending(b) && KeySet(a) == KeySet(b)
    ensures a == b
    decreases |a|
  {
    assert b != [] ==> b[0] in KeySet(b);
    if a != [] {
      assert a[0] in KeySet(a);
      SameHead(a, b);
      assert a == [a[0]] + a[1..] && b == [b[0]] + b[1..];
      TailKeys(a);
      TailKeys(b);
      AscendingUnique(a[1..], b[1..]);
    }
  }

  lemma SameHead(a: seq<string>, b: seq<string>)
    requires Ascending(a) && Ascending(b) && a != [] && b != [] && a[0] in b && b[0] in a
    ensures a[0] == b[0]
  {
    BeforeTotal(a[0], b[0]);
  }

  lemma TailKeys(a: seq<string>)
    requires Ascending(a) && a != []
    ensures KeySet(a[1..]) == KeySet(a) - {a[0]}
  {
    BeforeTotal(a[0], a[0]);
    forall x
      ensures x in KeySet(a[1..]) <==> x in KeySet(a) - {a[0]}
    {
      if x in KeySet(a) && x != a[0] {
        var i :| 0 <= i < |a| && a[i] == x;
        assert a[1..][i - 1] == x;
      }
      if x in KeySet(a[1..]) {
        var i :| 0 <= i < |a[1..]| && a[1..][i] == x;
        assert Before(a[0], a[i + 1]);
      }
    }
  }

  // -------------------------------------------------------------------------
  // UTF-8 (section 3 of RFC 3629)
  // -------------------------------------------------------------------------

  type Byte = b: int | 0 <= b < 256
  type Bytes = seq<Byte>

  function EncodeChar(c: char): (r: Bytes)
    ensures |r| > 0
  {
    var n := c as int;
    if n < 0x80 then [n]
    else if n < 0x800 then [0xC0 + n / 64, 0x80 + n % 64]
    else if n < 0x1_0000 then [0xE0 + n / 64 / 64, 0x80 + n / 64 % 64, 0x80 + n % 64]
    else [0xF0 + n / 64 / 64 / 64, 0x80 + n / 64 / 64 % 64, 0x80 + n / 64 % 64, 0x80 + n % 64]
  }

  function Utf8(s: string): Bytes {
    if s == [] then [] else EncodeChar(s[0]) + Utf8(s[1..])
  }

  /** Byte order, as Rust compares `str`. */
  predicate ByteBefore(a: Bytes, b: Bytes) {
    b != [] && (a == [] || a[0] < b[0] || (a[0] == b[0] && ByteBefore(a[1..], b[1..])))
  }

  lemma {:induction false} ByteBeforeAsymmetric(a: Bytes, b: Bytes)
    ensures !ByteBefore(a, a)
    ensures !(ByteBefore(a, b) && ByteBefore(b, a))
    decreases |a|
  {
    if a != [] && b != [] {
      ByteBeforeAsymmetric(a[1..], b[1..]);
    } else if a != [] {
      ByteBeforeAsymmetric(a[1..], b);
    }
  }

  lemma {:induction false} CommonPrefixCancels(p: Bytes, x: Bytes, y: Bytes)
    ensures ByteBefore(p + x, p + y) <==> ByteBefore(x, y)
    decreases |p|
  {
    if p == [] {
      assert p + x == x && p + y == y;
    } else {
      assert (p + x)[1..] == p[1..] + x && (p + y)[1..] == p[1..] + y;
      CommonPrefixCancels(p[1..], x, y);
    }
  }

  /** Two byte strings that agree before position `k` and differ there are ordered by that position. */
  lemma FirstDifference(a: Bytes, b: Bytes, k: nat)
    requires k < |a| && k < |b| && a[..k] == b[..k] && a[k] < b[k]
    ensures ByteBefore(a, b)
  {
    assert a == a[..k] + a[k..] && b == b[..k] + b[k..];
    CommonPrefixCancels(a[..k], a[k..], b[k..]);
  }

  lemma LeadByteGrows(c: char, d: char)
    requires c < d
    ensures EncodeChar(c)[0] <= EncodeChar(d)[0]
    ensures EncodeChar(c)[0] == EncodeChar(d)[0] ==> |EncodeChar(c)| == |EncodeChar(d)|
  {
  }

  /** The first byte at which the encodings of two code points differ. */
  lemma DifferingByte(c: char, d: char) returns (k: nat)
    requires c < d
    ensures k < |EncodeChar(c)| && k < |EncodeChar(d)|
    ensures EncodeChar(c)[..k] == EncodeChar(d)[..k] && EncodeChar(c)[k] < EncodeChar(d)[k]
  {
    var m, n := c as int, d as int;
    LeadByteGrows(c, d);
    if EncodeChar(c)[0] < EncodeChar(d)[0] { return 0; }
    k := |EncodeChar(c)| - 1;
    if m / 64 < n / 64 {
      k := |EncodeChar(c)| - 2;
      if m / 64 / 64 < n / 64 / 64 {
        k := 1;
      }
    }
  }

  /** A smaller code point is encoded to bytes that are smaller whatever follows either of them. */
  lemma CharOrderIsByteOrder(c: char, d: char, x: Bytes, y: Bytes)
    requires c < d
    ensures ByteBefore(EncodeChar(c) + x, EncodeChar(d) + y)
  {
    var a, b := EncodeChar(c), EncodeChar(d);
    var k := DifferingByte(c, d);
    assert (a + x)[..k] == a[..k] && (b + y)[..k] == b[..k];
    FirstDifference(a + x, b + y, k);
  }

  /** Sorting by UTF-8 bytes and sorting by code point are the same sort (section 1 of RFC 3629). */
  lemma {:induction false} Utf8KeepsOrder(a: string, b: string)
    ensures ByteBefore(Utf8(a), Utf8(b)) <==> Before(a, b)
    decreases |a|
  {
    if a == [] || b == [] {
    } else if a[0] < b[0] {
      CharOrderIsByteOrder(a[0], b[0], Utf8(a[1..]), Utf8(b[1..]));
    } else if b[0] < a[0] {
      CharOrderIsByteOrder(b[0], a[0], Utf8(b[1..]), Utf8(a[1..]));
      ByteBeforeAsymmetric(Utf8(b), Utf8(a));
    } else {
      CommonPrefixCancels(EncodeChar(a[0]), Utf8(a[1..]), Utf8(b[1..]));
      Utf8KeepsOrder(a[1..], b[1..]);
    }
  }

  /** Different texts have different bytes. */
  lemma Utf8Injective(a: string, b: string)
    requires Utf8(a) == Utf8(b)
    ensures a == b
  {
    BeforeTotal(a, b);
    Utf8KeepsOrder(a, b);
    Utf8KeepsOrder(b, a);
    ByteBeforeAsymmetric(Utf8(a), Utf8(b));
  }
}
