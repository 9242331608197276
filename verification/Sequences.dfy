/** The last element and the rest of a sequence, and the pieces of a text between separators. */
module Sequences {
  function Last<T>(s: seq<T>): T
    requires s != []
  {
    s[|s| - 1]
  }

  function Front<T>(s: seq<T>): seq<T>
    requires s != []
  {
    s[..|s| - 1]
  }

  /** The pieces of a text between occurrences of a character; there is always at least one. */
  function Split(s: string, c: char): (parts: seq<string>)
    ensures parts != []
  {
    if s == "" then [""]
    else
      var rest := Split(s[1..], c);
      if s[0] == c then [""] + rest else [[s[0]] + rest[0]] + rest[1..]
  }

  lemma {:induction false} SplitWithout(s: string, c: char)
    requires c !in s
    ensures Split(s, c) == [s]
  {
    if s != [] {
      SplitWithout(s[1..], c);
      assert s == [s[0]] + s[1..];
    }
  }

  /** The pieces with a character between each two. */
  function Rejoin(parts: seq<string>, c: char): string {
    if parts == [] then "" else if |parts| == 1 then parts[0] else parts[0] + [c] + Rejoin(parts[1..], c)
  }

  /** These are the pieces of the text: none has the character, and together they make it up. */
  predicate ArePieces(s: string, c: char, parts: seq<string>) {
    parts != [] && s == Rejoin(parts, c) && forall i :: 0 <= i < |parts| ==> c !in parts[i]
  }

  /** `Split` gives the pieces, and no other list of texts is them. */
  lemma {:induction false} SplitGivesThePieces(s: string, c: char, parts: seq<string>)
    ensures ArePieces(s, c, parts) <==> parts == Split(s, c)
    decreases |s|, |parts|
  {
    SplitIsPieces(s, c);
    if ArePieces(s, c, parts) { PiecesAreSplit(s, c, parts); }
  }

  lemma {:induction false} SplitIsPieces(s: string, c: char)
    ensures ArePieces(s, c, Split(s, c))
  {
    if s != "" {
      SplitIsPieces(s[1..], c);
      var rest := Split(s[1..], c);
      assert s == [s[0]] + s[1..];
      if s[0] == c {
        assert ([""] + rest)[1..] == rest;
        assert "" + [c] + s[1..] == s;
      } else {
        var first := [s[0]] + rest[0];
        var parts := [first] + rest[1..];
        assert parts[1..] == rest[1..];
        if |rest| > 1 { assert first + [c] + Rejoin(rest[1..], c) == [s[0]] + (rest[0] + [c] + Rejoin(rest[1..], c)); }
        assert c !in rest[0];
      }
    }
  }

  lemma {:induction false} PiecesAreSplit(s: string, c: char, parts: seq<string>)
    requires ArePieces(s, c, parts)
    ensures parts == Split(s, c)
    decreases |parts|
  {
    if |parts| == 1 {
      SplitWithout(s, c);
    } else {
      var rest := Rejoin(parts[1..], c);
      PiecesAreSplit(rest, c, parts[1..]);
      SplitAtFirst(parts[0], c, rest);
      assert parts == [parts[0]] + parts[1..];
    }
  }

  lemma {:induction false} SplitAtFirst(a: string, c: char, rest: string)
    requires c !in a
    ensures Split(a + [c] + rest, c) == [a] + Split(rest, c)
  {
    var s := a + [c] + rest;
    if a == [] {
      assert s[0] == c && s[1..] == rest;
    } else {
      assert s[0] == a[0] && s[1..] == a[1..] + [c] + rest;
      SplitAtFirst(a[1..], c, rest);
      assert [a[0]] + a[1..] == a;
    }
  }
}
