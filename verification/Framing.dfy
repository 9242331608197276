/**
 Length-prefixed concatenation: `<byte length in decimal> ":" <input>` for each input.

 `Split` undoes `Join`, so no two lists of inputs share a byte string, whatever
 bytes the inputs hold.
*/
module Framing {
  import opened Wrappers
  import opened Decimal
  import opened TextOrder

  const COLON: Byte := 58

  /** One input behind its length. */
  function Framed(input: Bytes): Bytes {
    Utf8(Numeral(|input|)) + [COLON] + input
  }

  function Join(inputs: seq<Bytes>): Bytes {
    if inputs == [] then [] else Framed(inputs[0]) + Join(inputs[1..])
  }

  // -------------------------------------------------------------------------
  // Reading frames back
  // -------------------------------------------------------------------------

  /** How many bytes come before the first colon. */
  function BeforeColon(b: Bytes): (k: nat)
    ensures k <= |b|
    ensures forall i :: 0 <= i < k ==> b[i] != COLON
    ensures k < |b| ==> b[k] == COLON
  {
    if b == [] || b[0] == COLON then 0 else 1 + BeforeColon(b[1..])
  }

  predicate AsciiDigits(b: Bytes) {
    forall i :: 0 <= i < |b| ==> 48 <= b[i] < 58
  }

  function DigitText(b: Bytes): (s: string)
    requires AsciiDigits(b)
    ensures AllDigits(s)
  {
    seq(|b|, i requires 0 <= i < |b| => b[i] as char)
  }

  datatype Frame = NoFrame | Frame(input: Bytes, rest: Bytes)

  /** The first frame of a byte string, and what follows it. */
  function TakeFrame(b: Bytes): (f: Frame)
    ensures f.Frame? ==> |f.rest| < |b|
  {
    var k := BeforeColon(b);
    if k == |b| || !AsciiDigits(b[..k]) then NoFrame
    else
      var n := ValueOf(DigitText(b[..k]));
      var tail := b[k + 1..];
      if n > |tail| then NoFrame else Frame(tail[..n], tail[n..])
  }

  function Split(b: Bytes): Option<seq<Bytes>>
    decreases |b|
  {
    if b == [] then Some([])
    else
      match TakeFrame(b)
      case NoFrame => None
      case Frame(input, rest) =>
        match Split(rest)
        case None => None
        case Some(inputs) => Some([input] + inputs)
  }

  lemma {:induction false} DigitsAreAscii(s: string)
    requires AllDigits(s)
    ensures AsciiDigits(Utf8(s)) && DigitText(Utf8(s)) == s
    decreases |s|
  {
    if s != [] {
      assert IsDigit(s[0]) && EncodeChar(s[0]) == [s[0] as int];
      assert AllDigits(s[1..]);
      DigitsAreAscii(s[1..]);
      assert Utf8(s) == [s[0] as int] + Utf8(s[1..]);
    }
  }

  lemma ColonEndsDigits(digits: Bytes, tail: Bytes)
    requires AsciiDigits(digits)
    ensures var b := digits + ([COLON] + tail);
      BeforeColon(b) == |digits| && b[..|digits|] == digits && b[|digits| + 1..] == tail
  {
    var b := digits + ([COLON] + tail);
    assert forall i :: 0 <= i < |digits| ==> b[i] == digits[i];
    assert b[|digits|] == COLON;
  }

  lemma FrameReadsBack(input: Bytes, rest: Bytes)
    ensures TakeFrame(Framed(input) + rest) == Frame(input, rest)
  {
    var digits, tail := Utf8(Numeral(|input|)), input + rest;
    assert Framed(input) + rest == digits + ([COLON] + tail);
    DigitsAreAscii(Numeral(|input|));
    NumeralRoundTrip(|input|);
    ColonEndsDigits(digits, tail);
    assert tail[..|input|] == input && tail[|input|..] == rest;
  }

  lemma SplitStep(b: Bytes, input: Bytes, rest: Bytes, inputs: seq<Bytes>)
    requires TakeFrame(b) == Frame(input, rest) && Split(rest) == Some(inputs)
    ensures Split(b) == Some([input] + inputs)
  {
  }

  /** Splitting a joined byte string gives the inputs back, in order. */
  lemma {:induction false} JoinRoundTrip(inputs: seq<Bytes>)
    ensures Split(Join(inputs)) == Some(inputs)
    decreases |inputs|
  {
    if inputs != [] {
      FrameReadsBack(inputs[0], Join(inputs[1..]));
      JoinRoundTrip(inputs[1..]);
      SplitStep(Join(inputs), inputs[0], Join(inputs[1..]), inputs[1..]);
      assert inputs == [inputs[0]] + inputs[1..];
    }
  }

  /** Two lists of inputs give the same byte string only when they are the same list. */
  lemma JoinInjective(a: seq<Bytes>, b: seq<Bytes>)
    requires Join(a) == Join(b)
    ensures a == b
  {
    JoinRoundTrip(a);
    JoinRoundTrip(b);
  }

  lemma {:induction false} JoinConcat(a: seq<Bytes>, b: seq<Bytes>)
    ensures Join(a + b) == Join(a) + Join(b)
    decreases |a|
  {
    if a == [] {
      assert a + b == b;
    } else {
      assert (a + b)[1..] == a[1..] + b;
      JoinConcat(a[1..], b);
    }
  }

  // -------------------------------------------------------------------------
  // The growing byte string
  // -------------------------------------------------------------------------

  class Blob {
    var bytes: Bytes

    constructor ()
      ensures bytes == []
    {
      bytes := [];
    }

    /** Appends one input behind its length. */
    method PushLp(input: Bytes)
      modifies this
      ensures bytes == old(bytes) + Join([input])
    {
      bytes := bytes + Utf8(Numeral(|input|));
      bytes := bytes + [COLON];
      bytes := bytes + input;
      assert Join([input]) == Framed(input) + Join([]);
    }
  }

  /** The loop: the result splits back into exactly these inputs, by `JoinRoundTrip`. */
  method JoinLp(inputs: seq<Bytes>) returns (out: Bytes)
    ensures out == Join(inputs)
  {
    var blob := new Blob();
    for i := 0 to |inputs|
      invariant fresh(blob)
      invariant blob.bytes == Join(inputs[..i])
    {
      blob.PushLp(inputs[i]);
      assert inputs[..i + 1] == inputs[..i] + [inputs[i]];
      JoinConcat(inputs[..i], [inputs[i]]);
    }
    assert inputs[..|inputs|] == inputs;
    return blob.bytes;
  }
}
