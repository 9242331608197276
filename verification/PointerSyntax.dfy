/**
 The text of a JSON Pointer (sections 3 and 4 of RFC 6901).

 The Rust parser unescapes a segment in one pass and refuses a bad escape; the
 Python parser makes two replacements and refuses none. On well-formed segments
 they agree, and a pointer's text is determined by its tokens.
*/
module PointerSyntax {
  import opened Wrappers
  import opened Sequences

  /** Every tilde is followed by `0` or `1`. */
  predicate WellFormed(segment: string) {
    segment == "" ||
    if segment[0] != '~' then WellFormed(segment[1..])
    else |segment| > 1 && segment[1] in "01" && WellFormed(segment[2..])
  }

  /** One pass over a segment, as the Rust parser makes it. */
  function Unescape(segment: string): Option<string> {
    if segment == "" then Some("")
    else if segment[0] != '~' then Prepend(segment[0], Unescape(segment[1..]))
    else if |segment| > 1 && segment[1] == '0' then Prepend('~', Unescape(segment[2..]))
    else if |segment| > 1 && segment[1] == '1' then Prepend('/', Unescape(segment[2..]))
    else None
  }

  function Prepend(c: char, r: Option<string>): Option<string> {
    match r case Some(t) => Some([c] + t) case None => None
  }

  function UnescapeAll(segments: seq<string>): Option<seq<string>> {
    if segments == [] then Some([])
    else match (Unescape(segments[0]), UnescapeAll(segments[1..]))
      case (Some(t), Some(rest)) => Some([t] + rest)
      case _ => None
  }

  /** The tokens of a pointer, or nothing when its syntax is bad. The empty pointer is refused. */
  function Tokens(raw: string): Option<seq<string>> {
    if raw == "" || raw[0] != '/' then None else UnescapeAll(Split(raw[1..], '/'))
  }

  /** The Rust loop over one segment. */
  method UnescapeSegment(segment: string) returns (r: Option<string>)
    ensures r == Unescape(segment)
  {
    var token := "";
    var i := 0;
    assert segment[i..] == segment && Append("", Unescape(segment)) == Unescape(segment) by {
      NothingAppended(Unescape(segment));
    }
    while i < |segment|
      invariant i <= |segment|
      invariant Unescape(segment) == Append(token, Unescape(segment[i..]))
    {
      var c := segment[i];
      assert segment[i..][0] == c && segment[i..][1..] == segment[i + 1..];
      i := i + 1;
      if c != '~' {
        Appended(token, c, Unescape(segment[i..]));
        token := token + [c];
        continue;
      }
      if i == |segment| { return None; }
      assert segment[i - 1..][2..] == segment[i + 1..] && segment[i - 1..][1] == segment[i];
      if segment[i] == '0' {
        Appended(token, '~', Unescape(segment[i + 1..]));
        token := token + "~";
      } else if segment[i] == '1' {
        Appended(token, '/', Unescape(segment[i + 1..]));
        token := token + "/";
      } else {
        return None;
      }
      i := i + 1;
    }
    assert segment[i..] == "" && token + "" == token;
    return Some(token);
  }

  function Append(t: string, r: Option<string>): Option<string> {
    match r case Some(u) => Some(t + u) case None => None
  }

  lemma NothingAppended(r: Option<string>)
    ensures Append("", r) == r
  {
    if r.Some? { assert "" + r.value == r.value; }
  }

  lemma Appended(t: string, c: char, r: Option<string>)
    ensures Append(t, Prepend(c, r)) == Append(t + [c], r)
  {
    if r.Some? { assert t + ([c] + r.value) == t + [c] + r.value; }
  }

  /** Parsing a pointer, segment by segment. */
  method ParsePointer(raw: string) returns (r: Option<seq<string>>)
    ensures r == Tokens(raw)
  {
    if raw == "" || raw[0] != '/' { return None; }
    var segments := Split(raw[1..], '/');
    var tokens: seq<string> := [];
    assert segments[0..] == segments;
    assert UnescapeAll(segments).Some? ==> [] + UnescapeAll(segments).value == UnescapeAll(segments).value;
    for i := 0 to |segments|
      invariant UnescapeAll(segments) == Joined(tokens, UnescapeAll(segments[i..]))
    {
      assert segments[i..][0] == segments[i] && segments[i..][1..] == segments[i + 1..];
      var token := UnescapeSegment(segments[i]);
      if token.None? { return None; }
      if UnescapeAll(segments[i + 1..]).Some? {
        assert tokens + ([token.value] + UnescapeAll(segments[i + 1..]).value)
            == tokens + [token.value] + UnescapeAll(segments[i + 1..]).value;
      }
      tokens := tokens + [token.value];
    }
    assert segments[|segments|..] == [] && tokens + [] == tokens;
    return Some(tokens);
  }

  function Joined(ts: seq<string>, r: Option<seq<string>>): Option<seq<string>> {
    match r case Some(us) => Some(ts + us) case None => None
  }

  lemma {:induction false} RefusesExactlyMalformed(segment: string)
    ensures Unescape(segment).Some? <==> WellFormed(segment)
    decreases |segment|
  {
    if segment != "" {
      if segment[0] != '~' {
        RefusesExactlyMalformed(segment[1..]);
      } else if |segment| > 1 {
        RefusesExactlyMalformed(segment[2..]);
      }
    }
  }

  // -------------------------------------------------------------------------
  // The Python unescape
  // -------------------------------------------------------------------------

  /** Left to right, every occurrence of `~` followed by `digit` becomes `c`. */
  function Replace(s: string, digit: char, c: char): string {
    if s == "" then ""
    else if s[0] == '~' && |s| > 1 && s[1] == digit then [c] + Replace(s[2..], digit, c)
    else [s[0]] + Replace(s[1..], digit, c)
  }

  function PythonUnescape(segment: string): string {
    Replace(Replace(segment, '1', '/'), '0', '~')
  }

  /** On well-formed segments the two replacements give what the one pass gives. */
  lemma {:induction false} TwoPassesAreOne(segment: string)
    requires WellFormed(segment)
    ensures Unescape(segment) == Some(PythonUnescape(segment))
    decreases |segment|
  {
    if segment != "" {
      if segment[0] != '~' {
        TwoPassesAreOne(segment[1..]);
      } else if segment[1] == '1' {
        TwoPassesAreOne(segment[2..]);
      } else {
        TwoPassesAreOne(segment[2..]);
        TildePasses(segment);
      }
    }
  }

  lemma TildePasses(s: string)
    requires |s| > 1 && s[0] == '~' && s[1] == '0'
    ensures PythonUnescape(s) == "~" + PythonUnescape(s[2..])
  {
    var t := Replace(s[2..], '1', '/');
    assert s[1..][1..] == s[2..];
    assert Replace(s[1..], '1', '/') == "0" + t;
    var first := Replace(s, '1', '/');
    assert first == "~" + ("0" + t);
    assert first[0] == '~' && first[1] == '0' && first[2..] == t;
  }

  // -------------------------------------------------------------------------
  // The tokens determine the text
  // -------------------------------------------------------------------------

  function Escape(token: string): string {
    if token == "" then ""
    else (if token[0] == '~' then "~0" else if token[0] == '/' then "~1" else [token[0]]) + Escape(token[1..])
  }

  function Render(tokens: seq<string>): string {
    if tokens == [] then "" else "/" + Escape(tokens[0]) + Render(tokens[1..])
  }

  lemma {:induction false} SegmentFromToken(segment: string)
    requires WellFormed(segment) && '/' !in segment
    ensures Unescape(segment).Some? && Escape(Unescape(segment).value) == segment
    decreases |segment|
  {
    if segment != "" {
      if segment[0] != '~' {
        SegmentFromToken(segment[1..]);
        assert segment == [segment[0]] + segment[1..];
      } else {
        SegmentFromToken(segment[2..]);
        assert segment == segment[..2] + segment[2..] && segment[..2] == ['~', segment[1]];
      }
      assert segment[0] in segment;
    }
  }

  lemma {:induction false} SegmentsHaveNoSlash(s: string)
    ensures forall i :: 0 <= i < |Split(s, '/')| ==> '/' !in Split(s, '/')[i]
    decreases |s|
  {
    if s != "" { SegmentsHaveNoSlash(s[1..]); }
  }

  /** The segments, each behind a slash. */
  function Slashed(segments: seq<string>): string {
    if segments == [] then "" else "/" + segments[0] + Slashed(segments[1..])
  }

  lemma {:induction false} SegmentsRebuild(s: string)
    ensures Slashed(Split(s, '/')) == "/" + s
    decreases |s|
  {
    if s == "" {
      assert Slashed([""]) == "/" + "" + Slashed([]) by { assert [""][1..] == []; }
    } else {
      var rest := Split(s[1..], '/');
      SegmentsRebuild(s[1..]);
      if s[0] == '/' {
        assert ([""] + rest)[1..] == rest;
        assert "/" + "" + ("/" + s[1..]) == "/" + s;
      } else {
        var r := [[s[0]] + rest[0]] + rest[1..];
        assert r[1..] == rest[1..];
        assert "/" + rest[0] + Slashed(rest[1..]) == "/" + s[1..];
        assert (rest[0] + Slashed(rest[1..])) == ("/" + rest[0] + Slashed(rest[1..]))[1..];
        assert ("/" + s[1..])[1..] == s[1..];
        assert "/" + ([s[0]] + rest[0]) + Slashed(rest[1..]) == "/" + ([s[0]] + (rest[0] + Slashed(rest[1..])));
        assert [s[0]] + s[1..] == s;
      }
    }
  }

  lemma {:induction false} RenderUndoesUnescape(segments: seq<string>)
    requires UnescapeAll(segments).Some?
    requires forall i :: 0 <= i < |segments| ==> '/' !in segments[i]
    ensures Render(UnescapeAll(segments).value) == Slashed(segments)
    decreases |segments|
  {
    if segments != [] {
      var tokens := UnescapeAll(segments).value;
      RefusesExactlyMalformed(segments[0]);
      SegmentFromToken(segments[0]);
      RenderUndoesUnescape(segments[1..]);
      assert tokens[1..] == UnescapeAll(segments[1..]).value;
    }
  }

  /** A pointer that parses is the rendering of its tokens. */
  lemma RawFromTokens(raw: string)
    requires Tokens(raw).Some?
    ensures Render(Tokens(raw).value) == raw
  {
    SegmentsHaveNoSlash(raw[1..]);
    RenderUndoesUnescape(Split(raw[1..], '/'));
    SegmentsRebuild(raw[1..]);
    assert raw == "/" + raw[1..];
  }

  /** So comparing pointers, their texts, or their tokens is the same comparison. */
  lemma SameTokensSameText(a: string, b: string)
    requires Tokens(a).Some? && Tokens(a) == Tokens(b)
    ensures a == b
  {
    RawFromTokens(a);
    RawFromTokens(b);
  }
}
